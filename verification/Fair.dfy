/** A fair's exhibitors grouped by initial (the `exhibitorsGroupedByName` resolver of
    `src/schema/v2/fair.ts`). */
module Fair {
  import opened Wrappers
  import opened AllPages
  import opened Sequences
  import opened Sorting

  // ---------------------------------------------------------------- exhibitors

  /** A partner at the fair, as listed by the API. */
  datatype Partner = Partner(name: string, showIds: seq<string>, id: string, partnerId: string)

  datatype Exhibitor = Exhibitor(name: string, profileId: Option<string>, id: string, partnerId: string)

  datatype Group = Group(letter: string, exhibitors: seq<Exhibitor>)

  /** The text functions used: `toLowerCase`, compared as strings are, and the initial of a name, that
      is, the first character of its first word in upper case and without diacritics. */
  datatype Text = Text(notAfter: (string, string) -> bool, initial: string -> string)

  function Listing(p: Partner): Exhibitor {
    Exhibitor(p.name, if p.showIds == [] then None else Some(p.showIds[0]), p.id, p.partnerId)
  }

  const SPECIAL: string := "#"

  predicate IsLetter(c: char) { 'A' <= c <= 'Z' || 'a' <= c <= 'z' }

  /** The group a name belongs to: its initial, or `#` when that has a character that is no letter. */
  function LetterOf(text: Text, name: string): string {
    var letter := text.initial(name);
    if exists i | 0 <= i < |letter| :: !IsLetter(letter[i]) then SPECIAL else letter
  }

  predicate StartsWithDigit(e: Exhibitor) {
    e.name != "" && '0' <= e.name[0] <= '9'
  }

  const LETTERS_ORDER: string := "ABCDEFGHIJKLMNOPQRSTUVWXYZ#"

  /** `LETTERS_ORDER.indexOf(letter, from)`. */
  function IndexFrom(letter: string, from: nat): (i: int)
    ensures i == -1 || (0 <= i && i + |letter| <= |LETTERS_ORDER| && LETTERS_ORDER[i..i + |letter|] == letter)
    decreases |LETTERS_ORDER| - from
  {
    if from + |letter| > |LETTERS_ORDER| then -1
    else if LETTERS_ORDER[from..from + |letter|] == letter then from
    else IndexFrom(letter, from + 1)
  }

  function Position(letter: string): int { IndexFrom(letter, 0) }

  // ---------------------------------------------------------------- the groups

  function ByName(text: Text): (Partner, Partner) -> bool {
    (a: Partner, b: Partner) => text.notAfter(a.name, b.name)
  }

  function ByPosition(): (Group, Group) -> bool {
    (a: Group, b: Group) => Position(a.letter) <= Position(b.letter)
  }

  function Listings(partners: seq<Partner>): seq<Exhibitor> { Map(Listing, partners) }

  function InGroup(text: Text, letter: string): Exhibitor -> bool {
    (e: Exhibitor) => LetterOf(text, e.name) == letter
  }

  function NotNumeric(): Exhibitor -> bool {
    (e: Exhibitor) => !StartsWithDigit(e)
  }

  function Numeric(): Exhibitor -> bool {
    (e: Exhibitor) => StartsWithDigit(e)
  }

  /** The exhibitors of a group, from the sorted list: those of its letter, in order; under `#` the
      numeric ones last. */
  function Members(text: Text, sorted: seq<Exhibitor>, letter: string): seq<Exhibitor> {
    var members := Filter(sorted, InGroup(text, letter));
    if letter == SPECIAL then Filter(members, NotNumeric()) + Filter(members, Numeric()) else members
  }

  /** The letters met, each once, in first-met order. */
  function Letters(text: Text, sorted: seq<Exhibitor>): (letters: seq<string>)
    ensures forall i, j | 0 <= i < j < |letters| :: letters[i] != letters[j]
    ensures forall e | e in sorted :: LetterOf(text, e.name) in letters
    ensures forall l | l in letters :: exists e :: e in sorted && LetterOf(text, e.name) == l
  {
    if sorted == [] then []
    else
      var init, last := sorted[..|sorted| - 1], sorted[|sorted| - 1];
      assert sorted == init + [last];
      var letters := Letters(text, init);
      if LetterOf(text, last.name) in letters then letters else letters + [LetterOf(text, last.name)]
  }

  function Values(text: Text, sorted: seq<Exhibitor>): (groups: seq<Group>)
    ensures |groups| == |Letters(text, sorted)|
  {
    var letters := Letters(text, sorted);
    seq(|letters|, i requires 0 <= i < |letters| => Group(letters[i], Members(text, sorted, letters[i])))
  }

  function SortedListings(text: Text, partners: seq<Partner>): seq<Exhibitor> {
    Listings(SortBy(partners, ByName(text)))
  }

  /** The page size `allViaLoader` uses when none is given. */
  const PAGE_SIZE: nat := 25

  function Grouped(text: Text, partners: seq<Partner>): seq<Group> {
    SortBy(Values(text, SortedListings(text, partners)), ByPosition())
  }

  /** The resolver: fetch all partners, sort, fill the dictionary (here its keys in order and its values),
      rearrange the special group, and sort the groups. */
  method ExhibitorsGroupedByName(text: Text, hasId: bool, endpoint: Endpoint<Partner>, count: nat)
      returns (groups: seq<Group>)
    ensures groups == if hasId then Grouped(text, AllItems(endpoint, count, 25)) else []
    ensures hasId ==> Total(groups) == multiset(Listings(AllItems(endpoint, count, 25)))
  {
    if !hasId {
      return [];
    }
    hide LetterOf, Filter, InGroup, Letters, Members, Values, SortBy, AllItems;
    var partners, requests := AllViaLoader(endpoint, count, PAGE_SIZE);
    var fairExhibitors := SortBy(partners, ByName(text));
    ghost var sorted := SortedListings(text, partners);
    var letters, exhibitors := FillGroups(text, fairExhibitors);
    exhibitors := Rearrange(text, sorted, letters, exhibitors);
    var values := ValuesOf(text, sorted, letters, exhibitors);
    groups := SortBy(values, ByPosition());
    GroupingConserves(text, partners);
  }

  /** `Object.values` of the dictionary. */
  method ValuesOf(text: Text, ghost sorted: seq<Exhibitor>, letters: seq<string>,
                  exhibitors: map<string, seq<Exhibitor>>)
      returns (values: seq<Group>)
    requires letters == Letters(text, sorted)
    requires forall l | l in letters :: l in exhibitors && exhibitors[l] == Members(text, sorted, l)
    ensures values == Values(text, sorted)
  {
    hide LetterOf, Members, Letters;
    values := [];
    for i := 0 to |letters|
      invariant |values| == i
      invariant forall k | 0 <= k < i :: values[k] == Group(letters[k], Members(text, sorted, letters[k]))
    {
      assert letters[i] in letters;
      values := values + [Group(letters[i], exhibitors[letters[i]])];
    }
  }

  /** Special characters first, then numbers. */
  method Rearrange(text: Text, ghost sorted: seq<Exhibitor>, ghost letters: seq<string>,
                   exhibitors: map<string, seq<Exhibitor>>)
      returns (rearranged: map<string, seq<Exhibitor>>)
    requires Filled(text, sorted, letters, exhibitors)
    ensures forall l | l in letters :: l in rearranged && rearranged[l] == Members(text, sorted, l)
  {
    hide LetterOf, Filter, InGroup, Letters;
    rearranged := exhibitors;
    if SPECIAL in exhibitors {
      var special := SpecialFirst(exhibitors[SPECIAL]);
      rearranged := exhibitors[SPECIAL := special];
    }
  }

  /** The dictionary after the exhibitors met so far: its keys in order, and its values. */
  ghost predicate Filled(text: Text, met: seq<Exhibitor>, letters: seq<string>,
                         exhibitors: map<string, seq<Exhibitor>>)
  {
    && letters == Letters(text, met)
    && (forall l :: l in exhibitors <==> l in letters)
    && forall l | l in letters :: exhibitors[l] == Filter(met, InGroup(text, l))
  }

  /** The loop that fills the dictionary. */
  method FillGroups(text: Text, fairExhibitors: seq<Partner>)
      returns (letters: seq<string>, exhibitors: map<string, seq<Exhibitor>>)
    ensures Filled(text, Listings(fairExhibitors), letters, exhibitors)
  {
    hide LetterOf, Filled;
    ghost var sorted := Listings(fairExhibitors);
    letters, exhibitors := [], map[];
    NothingFilled(text, sorted);
    for i := 0 to |fairExhibitors|
      invariant Filled(text, sorted[..i], letters, exhibitors)
    {
      var e := Listing(fairExhibitors[i]);
      assert sorted[..i + 1] == sorted[..i] + [e];
      var letter := LetterOf(text, fairExhibitors[i].name);
      NextExhibitor(text, sorted[..i], e, letters, exhibitors);
      if letter in exhibitors {
        exhibitors := exhibitors[letter := exhibitors[letter] + [e]];
      } else {
        letters := letters + [letter];
        exhibitors := exhibitors[letter := [e]];
      }
    }
    assert sorted[..|fairExhibitors|] == sorted;
  }

  lemma NothingFilled(text: Text, sorted: seq<Exhibitor>)
    ensures Filled(text, sorted[..0], [], map[])
  {
  }

  lemma LettersSnoc(text: Text, met: seq<Exhibitor>, e: Exhibitor)
    ensures var letter, letters := LetterOf(text, e.name), Letters(text, met);
            Letters(text, met + [e]) == if letter in letters then letters else letters + [letter]
  {
    hide LetterOf;
    assert (met + [e])[..|met|] == met;
  }

  lemma NextExhibitor(text: Text, met: seq<Exhibitor>, e: Exhibitor, letters: seq<string>,
                      exhibitors: map<string, seq<Exhibitor>>)
    requires Filled(text, met, letters, exhibitors)
    ensures var letter := LetterOf(text, e.name);
            if letter in exhibitors
            then Filled(text, met + [e], letters, exhibitors[letter := exhibitors[letter] + [e]])
            else Filled(text, met + [e], letters + [letter], exhibitors[letter := [e]])
  {
    hide LetterOf, Filter, InGroup, Letters;
    if LetterOf(text, e.name) in letters {
      FilledOn(text, met, e, letters, exhibitors);
    } else {
      FilledAnew(text, met, e, letters, exhibitors);
    }
  }

  lemma FilledOn(text: Text, met: seq<Exhibitor>, e: Exhibitor, letters: seq<string>,
                 exhibitors: map<string, seq<Exhibitor>>)
    requires Filled(text, met, letters, exhibitors) && LetterOf(text, e.name) in letters
    ensures var letter := LetterOf(text, e.name);
            Filled(text, met + [e], letters, exhibitors[letter := exhibitors[letter] + [e]])
  {
    hide LetterOf, Filter, InGroup, Letters;
    LettersSnoc(text, met, e);
    forall l | l in letters
      ensures Filter(met + [e], InGroup(text, l)) ==
              if LetterOf(text, e.name) == l then exhibitors[l] + [e] else exhibitors[l]
    {
      FilterSnoc(text, met, e, l);
    }
  }

  lemma FilledAnew(text: Text, met: seq<Exhibitor>, e: Exhibitor, letters: seq<string>,
                   exhibitors: map<string, seq<Exhibitor>>)
    requires Filled(text, met, letters, exhibitors) && LetterOf(text, e.name) !in letters
    ensures var letter := LetterOf(text, e.name);
            Filled(text, met + [e], letters + [letter], exhibitors[letter := [e]])
  {
    hide LetterOf, Filter, InGroup, Letters;
    var letter := LetterOf(text, e.name);
    LettersSnoc(text, met, e);
    NoneYet(text, met, letter);
    FilterSnoc(text, met, e, letter);
    forall l | l in letters ensures Filter(met + [e], InGroup(text, l)) == exhibitors[l] {
      FilterSnoc(text, met, e, l);
    }
  }

  lemma NoneYet(text: Text, sorted: seq<Exhibitor>, letter: string)
    requires letter !in Letters(text, sorted)
    ensures Filter(sorted, InGroup(text, letter)) == []
  {
    FilterIs(sorted, InGroup(text, letter));
    SomeElement(Filter(sorted, InGroup(text, letter)));
  }

  /** The two lists of the special group, put together. */
  method SpecialFirst(exhibitors: seq<Exhibitor>) returns (r: seq<Exhibitor>)
    ensures r == Filter(exhibitors, NotNumeric()) + Filter(exhibitors, Numeric())
  {
    var numericExhibitors, specialCharacterExhibitors := [], [];
    for i := 0 to |exhibitors|
      invariant numericExhibitors == Filter(exhibitors[..i], Numeric())
      invariant specialCharacterExhibitors == Filter(exhibitors[..i], NotNumeric())
    {
      assert exhibitors[..i + 1][..i] == exhibitors[..i];
      if StartsWithDigit(exhibitors[i]) {
        numericExhibitors := numericExhibitors + [exhibitors[i]];
      } else {
        specialCharacterExhibitors := specialCharacterExhibitors + [exhibitors[i]];
      }
    }
    assert exhibitors[..|exhibitors|] == exhibitors;
    r := specialCharacterExhibitors + numericExhibitors;
  }

  // ---------------------------------------------------------------- conservation

  /** All exhibitors of a list of groups, with their multiplicities. */
  function Total(groups: seq<Group>): multiset<Exhibitor> {
    if groups == [] then multiset{} else Total(groups[..|groups| - 1]) + multiset(groups[|groups| - 1].exhibitors)
  }

  lemma {:induction false} InsertKeepsTotal(groups: seq<Group>, g: Group)
    ensures Total(InsertLast(groups, g, ByPosition())) == Total(groups) + multiset(g.exhibitors)
  {
    if groups == [] || ByPosition()(groups[|groups| - 1], g) {
      assert (groups + [g])[..|groups|] == groups;
    } else {
      var init, last := groups[..|groups| - 1], groups[|groups| - 1];
      InsertKeepsTotal(init, g);
      var r := InsertLast(init, g, ByPosition());
      assert (r + [last])[..|r|] == r;
    }
  }

  lemma {:induction false} SortKeepsTotal(groups: seq<Group>)
    ensures Total(SortBy(groups, ByPosition())) == Total(groups)
  {
    if groups != [] {
      SortKeepsTotal(groups[..|groups| - 1]);
      InsertKeepsTotal(SortBy(groups[..|groups| - 1], ByPosition()), groups[|groups| - 1]);
    }
  }

  lemma MembersAreTheFilter(text: Text, sorted: seq<Exhibitor>, letter: string)
    ensures multiset(Members(text, sorted, letter)) == multiset(Filter(sorted, InGroup(text, letter)))
  {
    var members := Filter(sorted, InGroup(text, letter));
    FilterSplits(members, NotNumeric(), Numeric());
  }

  /** The exhibitors whose letter is among `letters`, letter by letter. */
  function TotalOf(text: Text, sorted: seq<Exhibitor>, letters: seq<string>): multiset<Exhibitor> {
    if letters == [] then multiset{}
    else TotalOf(text, sorted, letters[..|letters| - 1])
         + multiset(Filter(sorted, InGroup(text, letters[|letters| - 1])))
  }

  lemma {:induction false} TotalOfNothing(text: Text, letters: seq<string>)
    ensures TotalOf(text, [], letters) == multiset{}
  {
    if letters != [] {
      TotalOfNothing(text, letters[..|letters| - 1]);
    }
  }

  lemma {:induction false} TotalGrows(text: Text, sorted: seq<Exhibitor>, e: Exhibitor, letters: seq<string>)
    requires forall i, j | 0 <= i < j < |letters| :: letters[i] != letters[j]
    ensures TotalOf(text, sorted + [e], letters) ==
            TotalOf(text, sorted, letters) + (if LetterOf(text, e.name) in letters then multiset{e} else multiset{})
  {
    hide LetterOf, InGroup, Filter;
    if letters != [] {
      var init, last := letters[..|letters| - 1], letters[|letters| - 1];
      TotalGrows(text, sorted, e, init);
      FilterSnoc(text, sorted, e, last);
      assert letters == init + [last];
    }
  }

  lemma FilterSnoc(text: Text, sorted: seq<Exhibitor>, e: Exhibitor, letter: string)
    ensures Filter(sorted + [e], InGroup(text, letter)) ==
            Filter(sorted, InGroup(text, letter)) + (if LetterOf(text, e.name) == letter then [e] else [])
  {
    hide LetterOf;
    assert (sorted + [e])[..|sorted|] == sorted;
  }

  lemma {:induction false} Partition(text: Text, sorted: seq<Exhibitor>, letters: seq<string>)
    requires forall i, j | 0 <= i < j < |letters| :: letters[i] != letters[j]
    requires forall e | e in sorted :: LetterOf(text, e.name) in letters
    ensures TotalOf(text, sorted, letters) == multiset(sorted)
  {
    if sorted == [] {
      TotalOfNothing(text, letters);
    } else {
      var init, last := sorted[..|sorted| - 1], sorted[|sorted| - 1];
      assert sorted == init + [last];
      Partition(text, init, letters);
      TotalGrows(text, init, last, letters);
    }
  }

  lemma {:induction false} TotalByLetter(text: Text, sorted: seq<Exhibitor>, groups: seq<Group>, letters: seq<string>)
    requires |groups| == |letters|
    requires forall i | 0 <= i < |groups| :: groups[i] == Group(letters[i], Members(text, sorted, letters[i]))
    ensures Total(groups) == TotalOf(text, sorted, letters)
  {
    if groups != [] {
      TotalByLetter(text, sorted, groups[..|groups| - 1], letters[..|letters| - 1]);
      MembersAreTheFilter(text, sorted, letters[|letters| - 1]);
    }
  }

  /** Grouping loses nobody and doubles nobody, whatever the initials. */
  lemma GroupingConserves(text: Text, partners: seq<Partner>)
    ensures Total(Grouped(text, partners)) == multiset(Listings(partners))
  {
    var sorted := SortedListings(text, partners);
    var letters := Letters(text, sorted);
    SortKeepsTotal(Values(text, sorted));
    TotalByLetter(text, sorted, Values(text, sorted), letters);
    Partition(text, sorted, letters);
    SortKeepsElements(partners, ByName(text));
    MapOfPermutation(Listing, SortBy(partners, ByName(text)), partners);
  }

  // ---------------------------------------------------------------- order

  /** Names are compared by a total preorder. */
  ghost predicate ComparesNames(text: Text) {
    && (forall a, b :: text.notAfter(a, b) || text.notAfter(b, a))
    && (forall a, b, c :: text.notAfter(a, b) && text.notAfter(b, c) ==> text.notAfter(a, c))
  }

  ghost predicate ByNameOrder(text: Text, es: seq<Exhibitor>) {
    forall i, j | 0 <= i < j < |es| :: text.notAfter(es[i].name, es[j].name)
  }

  /** The groups come by the position of their letter, no letter twice; each holds exactly the exhibitors
      of its letter, and at least one; letter groups are in name order, and under `#` the names that
      start with a digit follow all others, both parts in name order. */
  ghost predicate WellGrouped(text: Text, partners: seq<Partner>, groups: seq<Group>) {
    && Distinct(GroupLetters(groups))
    && SortedBy(groups, ByPosition())
    && (forall g | g in groups :: GroupRight(text, Listings(partners), g))
    && (forall p | p in partners :: exists g :: g in groups && g.letter == LetterOf(text, p.name))
  }

  function GroupLetters(groups: seq<Group>): seq<string> { Map((g: Group) => g.letter, groups) }

  ghost predicate GroupRight(text: Text, listed: seq<Exhibitor>, g: Group) {
    && g.exhibitors != []
    && multiset(g.exhibitors) == multiset(Filter(listed, InGroup(text, g.letter)))
    && (g.letter != SPECIAL ==> ByNameOrder(text, g.exhibitors))
    && (g.letter == SPECIAL ==> exists cut | 0 <= cut <= |g.exhibitors| ::
          && (forall i | 0 <= i < |g.exhibitors| ::
                g.exhibitors[i].name != "" && g.exhibitors[i].name[0] in "0123456789" <==> cut <= i)
          && ByNameOrder(text, g.exhibitors[..cut])
          && ByNameOrder(text, g.exhibitors[cut..]))
  }

  lemma {:induction false} FilterCounts(xs: seq<Exhibitor>, p: Exhibitor -> bool, x: Exhibitor)
    ensures multiset(Filter(xs, p))[x] == if p(x) then multiset(xs)[x] else 0
  {
    if xs != [] {
      MultisetOfLast(xs);
      FilterCounts(xs[..|xs| - 1], p, x);
    }
  }

  lemma FilterOfPermutation(a: seq<Exhibitor>, b: seq<Exhibitor>, p: Exhibitor -> bool)
    requires multiset(a) == multiset(b)
    ensures multiset(Filter(a, p)) == multiset(Filter(b, p))
  {
    forall x: Exhibitor ensures multiset(Filter(a, p))[x] == multiset(Filter(b, p))[x] {
      FilterCounts(a, p, x);
      FilterCounts(b, p, x);
    }
  }

  lemma ListingsSorted(text: Text, partners: seq<Partner>)
    requires ComparesNames(text)
    ensures ByNameOrder(text, SortedListings(text, partners))
  {
    ByNameIsPreorder(text);
    SortSorts(partners, ByName(text));
  }

  lemma ByNameIsPreorder(text: Text)
    requires ComparesNames(text)
    ensures TotalPreorder(ByName(text))
  {
    var le := ByName(text);
    forall x: Partner, y: Partner ensures le(x, y) || le(y, x) {
      assert text.notAfter(x.name, y.name) || text.notAfter(y.name, x.name);
    }
    forall x: Partner, y: Partner, z: Partner | le(x, y) && le(y, z) ensures le(x, z) {
      assert text.notAfter(x.name, y.name) && text.notAfter(y.name, z.name);
    }
  }

  lemma FilterInNameOrder(text: Text, es: seq<Exhibitor>, p: Exhibitor -> bool)
    requires ByNameOrder(text, es)
    ensures ByNameOrder(text, Filter(es, p))
  {
    var le := (a: Exhibitor, b: Exhibitor) => text.notAfter(a.name, b.name);
    assert SortedBy(es, le);
    FilterSorted(es, le, p);
  }

  lemma DigitsAre(e: Exhibitor)
    ensures StartsWithDigit(e) <==> e.name != "" && e.name[0] in "0123456789"
  {
    var digits := "0123456789";
    assert forall i | 0 <= i < 10 :: digits[i] as int == '0' as int + i;
    if StartsWithDigit(e) {
      assert digits[e.name[0] as int - '0' as int] == e.name[0];
    }
  }

  lemma SpecialGroupRight(text: Text, members: seq<Exhibitor>)
    requires ByNameOrder(text, members)
    ensures var es, cut := Filter(members, NotNumeric()) + Filter(members, Numeric()), |Filter(members, NotNumeric())|;
            && (forall i | 0 <= i < |es| :: es[i].name != "" && es[i].name[0] in "0123456789" <==> cut <= i)
            && ByNameOrder(text, es[..cut])
            && ByNameOrder(text, es[cut..])
  {
    var first, second := Filter(members, NotNumeric()), Filter(members, Numeric());
    var es := first + second;
    FilterIs(members, NotNumeric());
    FilterIs(members, Numeric());
    FilterInNameOrder(text, members, NotNumeric());
    FilterInNameOrder(text, members, Numeric());
    assert es[..|first|] == first && es[|first|..] == second;
    forall i | 0 <= i < |es|
      ensures es[i].name != "" && es[i].name[0] in "0123456789" <==> |first| <= i
    {
      DigitsAre(es[i]);
      if i < |first| {
        assert first[i] in first;
      } else {
        assert second[i - |first|] in second;
      }
    }
  }

  lemma ValueIsRight(text: Text, partners: seq<Partner>, i: nat)
    requires ComparesNames(text) && i < |Values(text, SortedListings(text, partners))|
    ensures GroupRight(text, Listings(partners), Values(text, SortedListings(text, partners))[i])
  {
    hide LetterOf, StartsWithDigit, Filter, Letters, InGroup, SortedListings;
    var sorted := SortedListings(text, partners);
    var letter := Letters(text, sorted)[i];
    var members := Filter(sorted, InGroup(text, letter));
    ListingsSorted(text, partners);
    FilterInNameOrder(text, sorted, InGroup(text, letter));
    MembersOfLetter(text, partners, letter);
    MembersAreTheFilter(text, sorted, letter);
    SomeMember(text, sorted, i);
    if letter == SPECIAL {
      SpecialGroupRight(text, members);
    }
  }

  lemma MembersOfLetter(text: Text, partners: seq<Partner>, letter: string)
    ensures multiset(Filter(SortedListings(text, partners), InGroup(text, letter))) ==
            multiset(Filter(Listings(partners), InGroup(text, letter)))
  {
    hide InGroup;
    SortKeepsElements(partners, ByName(text));
    MapOfPermutation(Listing, SortBy(partners, ByName(text)), partners);
    FilterOfPermutation(SortedListings(text, partners), Listings(partners), InGroup(text, letter));
  }

  lemma SomeMember(text: Text, sorted: seq<Exhibitor>, i: nat)
    requires i < |Letters(text, sorted)|
    ensures Members(text, sorted, Letters(text, sorted)[i]) != []
  {
    hide LetterOf;
    var letter := Letters(text, sorted)[i];
    assert letter in Letters(text, sorted);
    var e :| e in sorted && LetterOf(text, e.name) == letter;
    FilterIs(sorted, InGroup(text, letter));
    MembersAreTheFilter(text, sorted, letter);
    assert e in multiset(Filter(sorted, InGroup(text, letter)));
    assert e in multiset(Members(text, sorted, letter));
  }

  lemma PartnerIsListed(text: Text, partners: seq<Partner>, p: Partner)
    requires p in partners
    ensures Listing(p) in SortedListings(text, partners)
  {
    var sorted := SortBy(partners, ByName(text));
    SortKeepsElements(partners, ByName(text));
    assert p in multiset(sorted);
    var i :| 0 <= i < |sorted| && sorted[i] == p;
    assert SortedListings(text, partners)[i] == Listing(p);
  }

  /** What the resolver returns is well grouped, whatever the initials. */
  lemma ExhibitorsAreWellGrouped(text: Text, partners: seq<Partner>)
    requires ComparesNames(text)
    ensures WellGrouped(text, partners, Grouped(text, partners))
  {
    hide Position, LetterOf, GroupRight, SortedListings, Values;
    var values := Values(text, SortedListings(text, partners));
    var groups := SortBy(values, ByPosition());
    SortSorts(values, ByPosition());
    SortKeepsElements(values, ByPosition());
    LettersStayDistinct(text, partners);
    forall g | g in groups ensures GroupRight(text, Listings(partners), g) {
      assert g in multiset(groups);
      var i :| 0 <= i < |values| && values[i] == g;
      ValueIsRight(text, partners, i);
    }
    forall p | p in partners ensures exists g :: g in groups && g.letter == LetterOf(text, p.name) {
      var i := GroupOf(text, partners, p);
      assert values[i] in multiset(values) && values[i] in multiset(groups);
      assert values[i] in groups;
    }
  }

  lemma LettersStayDistinct(text: Text, partners: seq<Partner>)
    ensures Distinct(GroupLetters(Grouped(text, partners)))
  {
    hide Position, LetterOf, Letters, Members, SortedListings, SortBy;
    var values := Values(text, SortedListings(text, partners));
    var letters := Letters(text, SortedListings(text, partners));
    SortKeepsElements(values, ByPosition());
    MapOfPermutation((g: Group) => g.letter, Grouped(text, partners), values);
    assert GroupLetters(values) == letters;
    PermutationStaysDistinct(letters, GroupLetters(Grouped(text, partners)));
  }

  /** A group is there for some partner. */
  lemma SomePartnerOf(text: Text, partners: seq<Partner>, g: Group)
    requires GroupRight(text, Listings(partners), g)
    ensures exists p :: p in partners && LetterOf(text, p.name) == g.letter
  {
    hide LetterOf, ByNameOrder, StartsWithDigit;
    var listed := Listings(partners);
    var e := g.exhibitors[0];
    assert e in multiset(g.exhibitors);
    assert e in Filter(listed, InGroup(text, g.letter));
    FilterIs(listed, InGroup(text, g.letter));
    var i :| 0 <= i < |listed| && listed[i] == e;
    assert partners[i] in partners && LetterOf(text, partners[i].name) == g.letter;
  }

  /** The groups come one after another in the order A to Z, `#`. */
  ghost predicate Ascending(groups: seq<Group>) {
    forall i, j | 0 <= i < j < |groups| :: Position(groups[i].letter) < Position(groups[j].letter)
  }

  /** Different initials have different positions; two that are not in the alphabet have not. */
  ghost predicate PositionsTellApart(text: Text, partners: seq<Partner>) {
    forall p, q | p in partners && q in partners && LetterOf(text, p.name) != LetterOf(text, q.name) ::
      Position(LetterOf(text, p.name)) != Position(LetterOf(text, q.name))
  }

  /** The order of the groups is that of their positions, with no two alike, if and only if positions tell
      the initials apart. */
  lemma GroupsAscendExactly(text: Text, partners: seq<Partner>)
    requires ComparesNames(text)
    ensures Ascending(Grouped(text, partners)) <==> PositionsTellApart(text, partners)
  {
    hide Position, LetterOf, GroupRight, Grouped, Listings;
    var groups := Grouped(text, partners);
    ExhibitorsAreWellGrouped(text, partners);
    if PositionsTellApart(text, partners) {
      forall i, j | 0 <= i < j < |groups| ensures Position(groups[i].letter) < Position(groups[j].letter) {
        assert groups[i] in groups && groups[j] in groups;
        SomePartnerOf(text, partners, groups[i]);
        SomePartnerOf(text, partners, groups[j]);
        assert GroupLetters(groups)[i] != GroupLetters(groups)[j];
        assert ByPosition()(groups[i], groups[j]);
      }
    }
    if Ascending(groups) {
      forall p, q | p in partners && q in partners && LetterOf(text, p.name) != LetterOf(text, q.name)
        ensures Position(LetterOf(text, p.name)) != Position(LetterOf(text, q.name))
      {
        var i :| 0 <= i < |groups| && groups[i].letter == LetterOf(text, p.name);
        var j :| 0 <= j < |groups| && groups[j].letter == LetterOf(text, q.name);
        assert i < j || j < i;
      }
    }
  }

  // ---------------------------------------------------------------- the alphabet

  predicate OneLetter(s: string) { |s| == 1 && 'A' <= s[0] <= 'Z' }

  /** Some character is none of A to Z and a to z. */
  predicate Unlettered(s: string) {
    exists i | 0 <= i < |s| :: !('A' <= s[i] <= 'Z') && !('a' <= s[i] <= 'z')
  }

  /** Every initial is one letter A to Z, or has a character that is no letter. */
  ghost predicate InitialsAreLetters(text: Text, partners: seq<Partner>) {
    forall p | p in partners :: OneLetter(text.initial(p.name)) || Unlettered(text.initial(p.name))
  }

  /** All groups are for a letter A to Z or `#`; the letters ascend, and `#` comes last. */
  ghost predicate Alphabetical(groups: seq<Group>) {
    && (forall i | 0 <= i < |groups| :: OneLetter(groups[i].letter) || groups[i].letter == "#")
    && (forall i, j | 0 <= i < j < |groups| :: LetterBefore(groups[i].letter, groups[j].letter))
  }

  /** Of two letters, or a letter and `#`. */
  predicate LetterBefore(s: string, t: string) {
    OneLetter(s) && (t == "#" || (OneLetter(t) && s[0] < t[0]))
  }

  lemma {:induction false} IndexOfCharacter(c: char, from: nat, at: nat)
    requires from <= at < |LETTERS_ORDER| && LETTERS_ORDER[at] == c
    requires forall i | from <= i < at :: LETTERS_ORDER[i] != c
    ensures IndexFrom([c], from) == at
    decreases at - from
  {
    if from == at {
      assert LETTERS_ORDER[from..from + 1] == [c];
    } else {
      assert LETTERS_ORDER[from..from + 1] == [LETTERS_ORDER[from]];
      IndexOfCharacter(c, from + 1, at);
    }
  }

  /** The letters have the positions 0 to 25, and `#` the next one. */
  lemma PositionsAre(letter: string)
    requires OneLetter(letter) || letter == "#"
    ensures Position(letter) == if letter == "#" then 26 else letter[0] as int - 'A' as int
  {
    assert |LETTERS_ORDER| == 27 && LETTERS_ORDER[26] == '#';
    assert forall i | 0 <= i < 26 :: LETTERS_ORDER[i] as int == 'A' as int + i;
    assert letter == [letter[0]];
    IndexOfCharacter(letter[0], 0, if letter == "#" then 26 else letter[0] as int - 'A' as int);
  }

  lemma LettersAre(text: Text, name: string)
    ensures LetterOf(text, name) == if Unlettered(text.initial(name)) then "#" else text.initial(name)
  {
    var letter := text.initial(name);
    assert forall i | 0 <= i < |letter| ::
             IsLetter(letter[i]) <==> ('A' <= letter[i] <= 'Z') || ('a' <= letter[i] <= 'z');
  }

  lemma PositionsCompare(s: string, t: string)
    requires (OneLetter(s) || s == "#") && (OneLetter(t) || t == "#")
    ensures Position(s) < Position(t) <==> LetterBefore(s, t)
  {
    hide Position;
    PositionsAre(s);
    PositionsAre(t);
  }

  lemma AscendingIsAlphabetical(groups: seq<Group>)
    requires forall i | 0 <= i < |groups| :: OneLetter(groups[i].letter) || groups[i].letter == "#"
    ensures Ascending(groups) <==> Alphabetical(groups)
  {
    hide Position;
    if Ascending(groups) {
      forall i, j | 0 <= i < j < |groups| ensures LetterBefore(groups[i].letter, groups[j].letter) {
        PositionsCompare(groups[i].letter, groups[j].letter);
      }
    }
    if Alphabetical(groups) {
      forall i, j | 0 <= i < j < |groups| ensures Position(groups[i].letter) < Position(groups[j].letter) {
        PositionsCompare(groups[i].letter, groups[j].letter);
      }
    }
  }

  /** The groups are for letters A to Z and `#`, in that order, if and only if every initial is such a letter
      or has a character that is no letter. */
  lemma GroupsAreAlphabeticalExactly(text: Text, partners: seq<Partner>)
    requires ComparesNames(text)
    ensures Alphabetical(Grouped(text, partners)) <==> InitialsAreLetters(text, partners)
  {
    hide Position, LetterOf, GroupRight, Grouped, Listings, OneLetter, Unlettered;
    var groups := Grouped(text, partners);
    ExhibitorsAreWellGrouped(text, partners);
    GroupsAscendExactly(text, partners);
    forall p | p in partners
      ensures OneLetter(text.initial(p.name)) || Unlettered(text.initial(p.name)) <==>
              OneLetter(LetterOf(text, p.name)) || LetterOf(text, p.name) == "#"
    {
      LetterIsInAlphabet(text, p.name);
    }
    if InitialsAreLetters(text, partners) {
      LettersTellApart(text, partners);
      forall i | 0 <= i < |groups| ensures OneLetter(groups[i].letter) || groups[i].letter == "#" {
        assert groups[i] in groups;
        SomePartnerOf(text, partners, groups[i]);
      }
      AscendingIsAlphabetical(groups);
    }
  }

  lemma LetterIsInAlphabet(text: Text, name: string)
    ensures OneLetter(text.initial(name)) || Unlettered(text.initial(name)) <==>
            OneLetter(LetterOf(text, name)) || LetterOf(text, name) == "#"
  {
    hide LetterOf;
    LettersAre(text, name);
  }

  lemma LettersTellApart(text: Text, partners: seq<Partner>)
    requires InitialsAreLetters(text, partners)
    ensures PositionsTellApart(text, partners)
  {
    hide Position, LetterOf, Unlettered;
    forall p | p in partners
      ensures var letter := LetterOf(text, p.name);
              && (OneLetter(letter) || letter == "#")
              && Position(letter) == if letter == "#" then 26 else letter[0] as int - 'A' as int
    {
      LetterIsInAlphabet(text, p.name);
      PositionsAre(LetterOf(text, p.name));
    }
    forall p, q | p in partners && q in partners
        && Position(LetterOf(text, p.name)) == Position(LetterOf(text, q.name))
      ensures LetterOf(text, p.name) == LetterOf(text, q.name)
    {
      assert LetterOf(text, p.name) == [LetterOf(text, p.name)[0]];
    }
  }

  // ---------------------------------------------------------------- who is listed

  /** The exhibitor made of a partner: its own name, id and partner id, and its first show, if any. */
  predicate Lists(e: Exhibitor, p: Partner) {
    && e.name == p.name && e.id == p.id && e.partnerId == p.partnerId
    && (p.showIds == [] ==> e.profileId == None)
    && (p.showIds != [] ==> e.profileId == Some(p.showIds[0]))
  }

  /** Its group: its initial, or `#` when that has a character that is no letter. */
  predicate FiledUnder(text: Text, p: Partner, letter: string) {
    letter == if Unlettered(text.initial(p.name)) then "#" else text.initial(p.name)
  }

  ghost predicate IsListed(text: Text, partners: seq<Partner>, e: Exhibitor, letter: string) {
    exists p :: p in partners && Lists(e, p) && FiledUnder(text, p, letter)
  }

  ghost predicate HasExhibitor(text: Text, groups: seq<Group>, p: Partner) {
    exists g, e :: g in groups && e in g.exhibitors && Lists(e, p) && FiledUnder(text, p, g.letter)
  }

  /** Every exhibitor returned is made of a partner and stands in that partner's group, and every partner
      has one. */
  lemma ExhibitorsAreTheirPartners(text: Text, partners: seq<Partner>)
    requires ComparesNames(text)
    ensures forall g, e | g in Grouped(text, partners) && e in g.exhibitors :: IsListed(text, partners, e, g.letter)
    ensures forall p | p in partners :: HasExhibitor(text, Grouped(text, partners), p)
  {
    hide LetterOf, Grouped, GroupRight, IsListed, HasExhibitor, Listings;
    var groups := Grouped(text, partners);
    ExhibitorsAreWellGrouped(text, partners);
    forall g, e | g in groups && e in g.exhibitors ensures IsListed(text, partners, e, g.letter) {
      MemberIsPartner(text, partners, g, e);
    }
    forall p | p in partners ensures HasExhibitor(text, groups, p) {
      var g :| g in groups && g.letter == LetterOf(text, p.name);
      PartnerIsMember(text, partners, groups, g, p);
    }
  }

  lemma MemberIsPartner(text: Text, partners: seq<Partner>, g: Group, e: Exhibitor)
    requires GroupRight(text, Listings(partners), g) && e in g.exhibitors
    ensures IsListed(text, partners, e, g.letter)
  {
    hide LetterOf, GroupRight, Unlettered;
    MemberIsListed(text, partners, g, e);
    var i :| 0 <= i < |partners| && Listings(partners)[i] == e && LetterOf(text, e.name) == g.letter;
    LettersAre(text, partners[i].name);
    assert partners[i] in partners && Lists(e, partners[i]);
  }

  lemma PartnerIsMember(text: Text, partners: seq<Partner>, groups: seq<Group>, g: Group, p: Partner)
    requires GroupRight(text, Listings(partners), g) && g in groups
    requires p in partners && g.letter == LetterOf(text, p.name)
    ensures HasExhibitor(text, groups, p)
  {
    hide LetterOf, GroupRight, Unlettered;
    var i :| 0 <= i < |partners| && partners[i] == p;
    assert Listings(partners)[i] == Listing(p);
    MemberIsListed(text, partners, g, Listing(p));
    LettersAre(text, p.name);
    assert Lists(Listing(p), p);
  }

  lemma MemberIsListed(text: Text, partners: seq<Partner>, g: Group, e: Exhibitor)
    requires GroupRight(text, Listings(partners), g)
    ensures e in g.exhibitors <==>
            exists i | 0 <= i < |partners| :: Listings(partners)[i] == e && LetterOf(text, e.name) == g.letter
  {
    hide LetterOf, ByNameOrder, StartsWithDigit;
    var listed := Listings(partners);
    FilterCounts(listed, InGroup(text, g.letter), e);
    assert e in g.exhibitors <==> e in multiset(g.exhibitors);
    assert e in listed <==> e in multiset(listed);
  }

  lemma GroupOf(text: Text, partners: seq<Partner>, p: Partner) returns (i: nat)
    requires p in partners
    ensures i < |Values(text, SortedListings(text, partners))|
    ensures Values(text, SortedListings(text, partners))[i].letter == LetterOf(text, p.name)
  {
    hide LetterOf, SortedListings;
    PartnerIsListed(text, partners, p);
    var letters := Letters(text, SortedListings(text, partners));
    assert LetterOf(text, Listing(p).name) in letters;
    i :| 0 <= i < |letters| && letters[i] == LetterOf(text, p.name);
  }

  /** Exhibitors of a group whose names compare alike keep the order the API lists them in; under `#`, those
      that start with a digit and those that do not, for themselves.  `alike` picks such exhibitors. */
  lemma AlikeNamesKeepOrder(text: Text, partners: seq<Partner>, g: Group, alike: Exhibitor -> bool)
    requires g in Grouped(text, partners)
    requires forall d, e | alike(d) && alike(e) :: text.notAfter(d.name, e.name)
    requires g.letter == SPECIAL ==>
               forall d, e | alike(d) && alike(e) :: StartsWithDigit(d) <==> StartsWithDigit(e)
    ensures Filter(g.exhibitors, alike) == Filter(Filter(Listings(partners), InGroup(text, g.letter)), alike)
  {
    hide LetterOf, StartsWithDigit, Filter, Letters, InGroup;
    var sorted := SortedListings(text, partners);
    var i := ValueOfGroup(text, partners, g);
    var members := Filter(sorted, InGroup(text, g.letter));
    assert g.exhibitors == Members(text, sorted, g.letter);
    if g.letter == SPECIAL {
      SpecialKeepsOrder(members, alike);
    }
    FilterCommutes(sorted, InGroup(text, g.letter), alike);
    SortKeepsOrder(text, partners, alike);
    FilterCommutes(Listings(partners), InGroup(text, g.letter), alike);
  }

  lemma ValueOfGroup(text: Text, partners: seq<Partner>, g: Group) returns (i: nat)
    requires g in Grouped(text, partners)
    ensures i < |Values(text, SortedListings(text, partners))|
    ensures Values(text, SortedListings(text, partners))[i] == g
  {
    hide Values, Position;
    var values := Values(text, SortedListings(text, partners));
    SortKeepsElements(values, ByPosition());
    assert g in multiset(Grouped(text, partners));
    i :| 0 <= i < |values| && values[i] == g;
  }

  lemma SortKeepsOrder(text: Text, partners: seq<Partner>, alike: Exhibitor -> bool)
    requires forall d, e | alike(d) && alike(e) :: text.notAfter(d.name, e.name)
    ensures Filter(SortedListings(text, partners), alike) == Filter(Listings(partners), alike)
  {
    hide Filter, SortBy;
    var p := (x: Partner) => alike(Listing(x));
    var sorted := SortBy(partners, ByName(text));
    forall x: Partner, y: Partner | p(x) && p(y) ensures ByName(text)(x, y) {
      assert text.notAfter(Listing(x).name, Listing(y).name);
    }
    SortIsStable(partners, ByName(text), p);
    FilterOfMap(Listing, sorted, p, alike);
    FilterOfMap(Listing, partners, p, alike);
  }

  /** Of exhibitors that all start with a digit, or none, the rearranging takes one part whole. */
  lemma SpecialKeepsOrder(members: seq<Exhibitor>, alike: Exhibitor -> bool)
    requires forall d, e | alike(d) && alike(e) :: StartsWithDigit(d) <==> StartsWithDigit(e)
    ensures Filter(Filter(members, NotNumeric()) + Filter(members, Numeric()), alike) == Filter(members, alike)
  {
    hide Filter;
    var kept := Filter(members, alike);
    FilterConcat(Filter(members, NotNumeric()), Filter(members, Numeric()), alike);
    FilterCommutes(members, NotNumeric(), alike);
    FilterCommutes(members, Numeric(), alike);
    FilterIs(members, alike);
    FilterExtremes(kept, NotNumeric());
    FilterExtremes(kept, Numeric());
    if kept != [] {
      assert kept[0] in kept;
    }
  }
}

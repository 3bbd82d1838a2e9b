/** The visitor that looks for a selected field (`src/lib/hasFieldSelection.ts`). */
module Selections {
  import opened Wrappers

  datatype Selection =
    | Field(name: string, selections: seq<Selection>)
    | Inline(selections: seq<Selection>)
    | Spread(name: string)

  /** The fragment definitions of a request, by name: their selection sets. */
  type Fragments = map<string, seq<Selection>>

  /** Length of the visitor's path to a selection of the visited node's own selection set: each level
      adds the keys `selectionSet`, `selections` and an index. */
  const OWN: nat := 3

  /** `SELECTION_DEPTH_THRESHOLD`. */
  const THRESHOLD: nat := 3

  // ---------------------------------------------------------------- meaning

  predicate Counts(sel: Selection, matching: string -> bool) {
    sel.Field? && sel.name != "__typename" && matching(sel.name)
  }

  /** A matching field stands directly in the selection set. */
  predicate Direct(sels: seq<Selection>, matching: string -> bool) {
    exists i | 0 <= i < |sels| :: Counts(sels[i], matching)
  }

  /** The spreads the visitor comes across below a node, its selections being `depth` keys away:
      those under inline fragments to any depth, but only under fields within the threshold. */
  function Entered(sels: seq<Selection>, depth: nat): set<string> {
    if sels == [] then {} else EnteredBy(sels[0], depth) + Entered(sels[1..], depth)
  }

  function EnteredBy(sel: Selection, depth: nat): set<string> {
    match sel
    case Field(_, sub) => if depth > OWN then {} else Entered(sub, depth + 3)
    case Inline(sub) => Entered(sub, depth + 3)
    case Spread(n) => {n}
  }

  /** A chain of fragments, each entered from the one before, the first from `sels`. */
  ghost predicate Chain(doc: Fragments, sels: seq<Selection>, names: seq<string>)
    decreases |names|
  {
    names != [] ==>
      names[0] in Entered(sels, OWN) && names[0] in doc && Chain(doc, doc[names[0]], names[1..])
  }

  ghost function End(doc: Fragments, sels: seq<Selection>, names: seq<string>): seq<Selection>
    requires Chain(doc, sels, names)
    decreases |names|
  {
    if names == [] then sels else End(doc, doc[names[0]], names[1..])
  }

  /** A matching field stands directly in the node's own selection set, or in that of a fragment
      reached through entered spreads. */
  ghost predicate Selects(doc: Fragments, sels: seq<Selection>, matching: string -> bool) {
    exists names: seq<string> :: Chain(doc, sels, names) && Direct(End(doc, sels, names), matching)
  }

  // ---------------------------------------------------------------- documents that validate

  /** Every spread names a fragment (section 5.5.2.1 of the GraphQL specification, October 2021), and
      spreads do not form cycles (section 5.5.2.2): `rank` is a topological numbering. */
  ghost predicate Spreadable(doc: Fragments, rank: map<string, nat>, sels: seq<Selection>, bound: nat) {
    forall i | 0 <= i < |sels| :: SpreadableOne(doc, rank, sels[i], bound)
  }

  ghost predicate SpreadableOne(doc: Fragments, rank: map<string, nat>, sel: Selection, bound: nat) {
    match sel
    case Field(_, sub) => forall i | 0 <= i < |sub| :: SpreadableOne(doc, rank, sub[i], bound)
    case Inline(sub) => forall i | 0 <= i < |sub| :: SpreadableOne(doc, rank, sub[i], bound)
    case Spread(n) => n in doc && n in rank && rank[n] < bound
  }

  ghost predicate Acyclic(doc: Fragments, rank: map<string, nat>) {
    forall n | n in doc && n in rank :: Spreadable(doc, rank, doc[n], rank[n])
  }

  // ---------------------------------------------------------------- the visitor

  class FieldVisitor {
    const doc: Fragments
    const matching: string -> bool
    var matched: bool

    constructor (doc: Fragments, matching: string -> bool)
      ensures this.doc == doc && this.matching == matching && !matched
    {
      this.doc := doc;
      this.matching := matching;
      matched := false;
    }

    /** `visitor`: a depth-first visit of its own, which a match ends. */
    method Visit(sels: seq<Selection>, ghost rank: map<string, nat>, ghost bound: nat)
      requires Acyclic(doc, rank) && Spreadable(doc, rank, sels, bound)
      modifies this
      ensures matched <==> old(matched) || Selects(doc, sels, matching)
      decreases bound, 1, sels
    {
      var broke := VisitAll(sels, OWN, rank, bound);
      SelectsUnfolds(doc, sels, matching);
    }

    /** The selections of one set, in order, until a handler breaks off the visit. */
    method VisitAll(sels: seq<Selection>, depth: nat, ghost rank: map<string, nat>, ghost bound: nat)
        returns (broke: bool)
      requires Acyclic(doc, rank) && Spreadable(doc, rank, sels, bound) && depth >= OWN
      modifies this
      ensures broke ==> matched
      ensures matched <==> old(matched) || Found(doc, sels, depth, matching)
      decreases bound, 0, sels
    {
      if sels == [] {
        return false;
      }
      broke := VisitOne(sels[0], depth, rank, bound);
      if !broke {
        broke := VisitAll(sels[1..], depth, rank, bound);
      }
      FoundUnfolds(doc, sels, depth, matching);
    }

    method VisitOne(sel: Selection, depth: nat, ghost rank: map<string, nat>, ghost bound: nat) returns (broke: bool)
      requires Acyclic(doc, rank) && SpreadableOne(doc, rank, sel, bound) && depth >= OWN
      modifies this
      ensures broke ==> matched
      ensures matched <==> old(matched) || FoundBy(doc, sel, depth, matching)
      decreases bound, 0, sel
    {
      match sel
      case Field(name, sub) =>
        if depth > THRESHOLD {
          return false;  // skip the subtree
        }
        if name != "__typename" && depth == THRESHOLD && matching(name) {
          matched := true;
          return true;  // break off the visit
        }
        broke := VisitAll(sub, depth + 3, rank, bound);
      case Inline(sub) =>
        broke := VisitAll(sub, depth + 3, rank, bound);
      case Spread(n) =>
        Visit(doc[n], rank, rank[n]);
        broke := false;
    }
  }

  /** What a visit of `sels`, `depth` keys below the visited node, finds. */
  ghost predicate Found(doc: Fragments, sels: seq<Selection>, depth: nat, matching: string -> bool) {
    || (depth == OWN && Direct(sels, matching))
    || exists n | n in Entered(sels, depth) && n in doc :: Selects(doc, doc[n], matching)
  }

  ghost predicate FoundBy(doc: Fragments, sel: Selection, depth: nat, matching: string -> bool) {
    || (depth == OWN && Counts(sel, matching))
    || exists n | n in EnteredBy(sel, depth) && n in doc :: Selects(doc, doc[n], matching)
  }

  lemma FoundUnfolds(doc: Fragments, sels: seq<Selection>, depth: nat, matching: string -> bool)
    requires sels != []
    ensures Found(doc, sels, depth, matching) <==>
            FoundBy(doc, sels[0], depth, matching) || Found(doc, sels[1..], depth, matching)
  {
    assert sels == [sels[0]] + sels[1..];
    assert Direct(sels, matching) <==> Counts(sels[0], matching) || Direct(sels[1..], matching) by {
      DirectConcat([sels[0]], sels[1..], matching);
    }
  }

  lemma DirectConcat(a: seq<Selection>, b: seq<Selection>, matching: string -> bool)
    ensures Direct(a + b, matching) <==> Direct(a, matching) || Direct(b, matching)
  {
    if Direct(a, matching) {
      var i :| 0 <= i < |a| && Counts(a[i], matching);
      assert (a + b)[i] == a[i];
    }
    if Direct(b, matching) {
      var i :| 0 <= i < |b| && Counts(b[i], matching);
      assert (a + b)[|a| + i] == b[i];
    }
  }

  lemma SelectsUnfolds(doc: Fragments, sels: seq<Selection>, matching: string -> bool)
    ensures Selects(doc, sels, matching) <==> Found(doc, sels, OWN, matching)
  {
    if Selects(doc, sels, matching) {
      var names: seq<string> :| Chain(doc, sels, names) && Direct(End(doc, sels, names), matching);
      if names != [] {
        assert Chain(doc, doc[names[0]], names[1..]);
        assert Selects(doc, doc[names[0]], matching);
      }
    }
    if Direct(sels, matching) {
      assert Chain(doc, sels, []) && Direct(End(doc, sels, []), matching);
    }
    if exists n | n in Entered(sels, OWN) && n in doc :: Selects(doc, doc[n], matching) {
      var n :| n in Entered(sels, OWN) && n in doc && Selects(doc, doc[n], matching);
      var names: seq<string> :| Chain(doc, doc[n], names) && Direct(End(doc, doc[n], names), matching);
      assert ([n] + names)[1..] == names;
      assert Chain(doc, sels, [n] + names) && Direct(End(doc, sels, [n] + names), matching);
    }
  }

  // ---------------------------------------------------------------- the exported functions

  /** `hasFieldSelection`: `fieldNodes` holds the selection sets of the root nodes. */
  method HasFieldSelection(fieldNodes: Option<seq<seq<Selection>>>, doc: Fragments, matching: string -> bool,
                           ghost rank: map<string, nat>, ghost bound: nat) returns (r: bool)
    requires Acyclic(doc, rank)
    requires fieldNodes.Some? ==> forall root | root in fieldNodes.value :: Spreadable(doc, rank, root, bound)
    ensures r <==> fieldNodes.None? || exists root | root in fieldNodes.value :: Selects(doc, root, matching)
  {
    if fieldNodes.None? {
      return true;
    }
    var roots := fieldNodes.value;
    for i := 0 to |roots|
      invariant forall k | 0 <= k < i :: !Selects(doc, roots[k], matching)
    {
      assert roots[i] in roots;
      var v := new FieldVisitor(doc, matching);
      v.Visit(roots[i], rank, bound);
      if v.matched {
        return true;
      }
    }
    r := false;
  }

  method HasIntersectionWithSelectionSet(fieldNodes: Option<seq<seq<Selection>>>, doc: Fragments,
                                         fieldNames: seq<string>, ghost rank: map<string, nat>, ghost bound: nat)
      returns (r: bool)
    requires Acyclic(doc, rank)
    requires fieldNodes.Some? ==> forall root | root in fieldNodes.value :: Spreadable(doc, rank, root, bound)
    ensures r <==> fieldNodes.None? ||
                   exists root | root in fieldNodes.value :: Selects(doc, root, (n: string) => n in fieldNames)
  {
    r := HasFieldSelection(fieldNodes, doc, (n: string) => n in fieldNames, rank, bound);
  }

  method IncludesFieldsOtherThanSelectionSet(fieldNodes: Option<seq<seq<Selection>>>, doc: Fragments,
                                             fieldNames: seq<string>, ghost rank: map<string, nat>, ghost bound: nat)
      returns (r: bool)
    requires Acyclic(doc, rank)
    requires fieldNodes.Some? ==> forall root | root in fieldNodes.value :: Spreadable(doc, rank, root, bound)
    ensures r <==> fieldNodes.None? ||
                   exists root | root in fieldNodes.value :: Selects(doc, root, (n: string) => n !in fieldNames)
  {
    r := HasFieldSelection(fieldNodes, doc, (n: string) => n !in fieldNames, rank, bound);
  }

  // ---------------------------------------------------------------- spreads and what they stand for

  lemma {:induction false} EnteredConcat(a: seq<Selection>, b: seq<Selection>, depth: nat)
    ensures Entered(a + b, depth) == Entered(a, depth) + Entered(b, depth)
  {
    if a == [] {
      assert a + b == b;
    } else {
      assert (a + b)[1..] == a[1..] + b;
      EnteredConcat(a[1..], b, depth);
    }
  }

  lemma FoundConcat(doc: Fragments, a: seq<Selection>, b: seq<Selection>, matching: string -> bool)
    ensures Selects(doc, a + b, matching) <==> Selects(doc, a, matching) || Selects(doc, b, matching)
  {
    hide Selects, Direct;
    SelectsUnfolds(doc, a + b, matching);
    SelectsUnfolds(doc, a, matching);
    SelectsUnfolds(doc, b, matching);
    DirectConcat(a, b, matching);
    EnteredConcat(a, b, OWN);
  }

  lemma SpreadStandsForFragment(doc: Fragments, n: string, matching: string -> bool)
    requires n in doc
    ensures Selects(doc, [Spread(n)], matching) <==> Selects(doc, doc[n], matching)
  {
    hide Selects;
    SelectsUnfolds(doc, [Spread(n)], matching);
    assert Entered([Spread(n)], OWN) == {n};
  }

  /** Writing out a fragment in place of a spread that stands directly in a selection set changes no
      answer, whatever is looked for. */
  lemma InliningASpread(doc: Fragments, before: seq<Selection>, n: string, after: seq<Selection>,
                        matching: string -> bool)
    requires n in doc
    ensures Selects(doc, before + [Spread(n)] + after, matching) <==> Selects(doc, before + doc[n] + after, matching)
  {
    FoundConcat(doc, before + [Spread(n)], after, matching);
    FoundConcat(doc, before, [Spread(n)], matching);
    FoundConcat(doc, before + doc[n], after, matching);
    FoundConcat(doc, before, doc[n], matching);
    SpreadStandsForFragment(doc, n, matching);
  }

  // ---------------------------------------------------------------- against GraphQL's own meaning

  /** The fields a selection set asks for itself, and its spreads, seen through inline fragments. */
  function OwnFields(sels: seq<Selection>): set<string> {
    if sels == [] then {}
    else
      var own := match sels[0]
        case Field(name, _) => {name}
        case Inline(sub) => OwnFields(sub)
        case Spread(_) => {};
      own + OwnFields(sels[1..])
  }

  function OwnSpreads(sels: seq<Selection>): set<string> {
    if sels == [] then {}
    else
      var own := match sels[0]
        case Field(_, _) => {}
        case Inline(sub) => OwnSpreads(sub)
        case Spread(n) => {n};
      own + OwnSpreads(sels[1..])
  }

  /** What GraphQL means by asking for a field: it is among a selection set's own fields, or among
      those of a fragment it spreads, and so on (section 6.3.2 of the GraphQL specification, October 2021). */
  ghost predicate AsksAlong(doc: Fragments, sels: seq<Selection>, names: seq<string>, matching: string -> bool)
    decreases |names|
  {
    if names == [] then exists f :: f in OwnFields(sels) && f != "__typename" && matching(f)
    else names[0] in OwnSpreads(sels) && names[0] in doc && AsksAlong(doc, doc[names[0]], names[1..], matching)
  }

  ghost predicate Asks(doc: Fragments, sels: seq<Selection>, matching: string -> bool) {
    exists names: seq<string> :: AsksAlong(doc, sels, names, matching)
  }

  /** Every own field but `__typename` also stands in the selection set itself, outside inline fragments,
      and every spread the visitor enters is an own one, none below a field only. */
  ghost predicate Straight(sels: seq<Selection>) {
    && (forall f | f in OwnFields(sels) && f != "__typename" :: HasField(sels, f))
    && Entered(sels, OWN) <= OwnSpreads(sels)
  }

  predicate HasField(sels: seq<Selection>, name: string) {
    exists i | 0 <= i < |sels| :: sels[i].Field? && sels[i].name == name
  }

  /** A request of a selection set and fragment definitions that validates. */
  ghost predicate Valid(doc: Fragments, sels: seq<Selection>) {
    exists rank, bound: nat :: Acyclic(doc, rank) && Spreadable(doc, rank, sels, bound)
  }

  ghost predicate StraightFragments(doc: Fragments) {
    forall n | n in doc :: Straight(doc[n])
  }

  /** The visitor answers what GraphQL means for every valid request with straight fragments and whatever
      is looked for, if and only if the selection set is straight too. */
  lemma RequestsAreAnsweredExactly(sels: seq<Selection>)
    ensures (forall doc: Fragments, matching: string -> bool | Valid(doc, sels) && StraightFragments(doc) ::
               Selects(doc, sels, matching) <==> Asks(doc, sels, matching))
            <==> Straight(sels)
  {
    if Straight(sels) {
      forall doc: Fragments, matching: string -> bool | StraightFragments(doc)
        ensures Selects(doc, sels, matching) <==> Asks(doc, sels, matching)
      {
        StraightRequestsAreAnswered(doc, sels, matching);
      }
    } else if f :| f in OwnFields(sels) && f != "__typename" && !HasField(sels, f) {
      StubIsValid(sels, {}, f);
      HiddenFieldIsMissed(sels, f);
    } else {
      var n :| n in Entered(sels, OWN) && n !in OwnSpreads(sels);
      var name := NewName(OwnFields(sels) + {"__typename"});
      StubIsValid(sels, {n}, name);
      LeakedSpreadIsFound(sels, n, name);
    }
  }

  lemma StraightRequestsAreAnswered(doc: Fragments, sels: seq<Selection>, matching: string -> bool)
    requires Straight(sels) && StraightFragments(doc)
    ensures Selects(doc, sels, matching) <==> Asks(doc, sels, matching)
  {
    forall names: seq<string> ensures
        Chain(doc, sels, names) && Direct(End(doc, sels, names), matching) <==> AsksAlong(doc, sels, names, matching)
    {
      StraightChain(doc, sels, names, matching);
    }
  }

  lemma {:induction false} StraightChain(doc: Fragments, sels: seq<Selection>, names: seq<string>,
                                         matching: string -> bool)
    requires Straight(sels) && StraightFragments(doc)
    ensures Chain(doc, sels, names) && Direct(End(doc, sels, names), matching)
            <==> AsksAlong(doc, sels, names, matching)
    decreases |names|
  {
    hide Straight;
    StraightSelections(sels, matching);
    if names != [] && names[0] in doc {
      StraightChain(doc, doc[names[0]], names[1..], matching);
    }
  }

  lemma StraightSelections(sels: seq<Selection>, matching: string -> bool)
    requires Straight(sels)
    ensures Entered(sels, OWN) == OwnSpreads(sels)
    ensures Direct(sels, matching) <==> exists f :: f in OwnFields(sels) && f != "__typename" && matching(f)
  {
    OwnSpreadsAreEntered(sels, OWN);
    if Direct(sels, matching) {
      var i :| 0 <= i < |sels| && Counts(sels[i], matching);
      DirectFieldsAreOwn(sels, i);
    }
    if f :| f in OwnFields(sels) && f != "__typename" && matching(f) {
      var i :| 0 <= i < |sels| && sels[i].Field? && sels[i].name == f;
      assert Counts(sels[i], matching);
    }
  }

  lemma {:induction false} OwnSpreadsAreEntered(sels: seq<Selection>, depth: nat)
    ensures OwnSpreads(sels) <= Entered(sels, depth)
  {
    if sels != [] {
      OwnSpreadsAreEntered(sels[1..], depth);
      if sels[0].Inline? {
        OwnSpreadsAreEntered(sels[0].selections, depth + 3);
      }
    }
  }

  lemma {:induction false} DirectFieldsAreOwn(sels: seq<Selection>, i: nat)
    requires i < |sels| && sels[i].Field?
    ensures sels[i].name in OwnFields(sels)
  {
    if i > 0 {
      DirectFieldsAreOwn(sels[1..], i - 1);
    }
  }

  // ---------------------------------------------------------------- requests that tell the two apart

  /** All fragments spread anywhere below. */
  function AllSpreads(sels: seq<Selection>): set<string> {
    if sels == [] then {}
    else
      var own := match sels[0]
        case Field(_, sub) => AllSpreads(sub)
        case Inline(sub) => AllSpreads(sub)
        case Spread(n) => {n};
      own + AllSpreads(sels[1..])
  }

  /** A definition for each fragment spread in `sels`: a single field, called `name` in the special ones
      and `__typename` in the others. */
  function Stub(sels: seq<Selection>, special: set<string>, name: string): Fragments {
    map n | n in AllSpreads(sels) :: [Field(if n in special then name else "__typename", [])]
  }

  lemma StubIsValid(sels: seq<Selection>, special: set<string>, name: string)
    ensures Valid(Stub(sels, special, name), sels) && StraightFragments(Stub(sels, special, name))
  {
    var doc: Fragments := Stub(sels, special, name);
    var rank: map<string, nat> := map n | n in AllSpreads(sels) :: 0;
    StubIsSpreadable(doc, rank, sels);
    assert Acyclic(doc, rank) && Spreadable(doc, rank, sels, 1);
    forall n: string | n in doc ensures Straight(doc[n]) {
      OneField(if n in special then name else "__typename", _ => true);
    }
  }

  lemma OneField(name: string, matching: string -> bool)
    ensures var sels := [Field(name, [])];
            && Straight(sels) && Entered(sels, OWN) == {}
            && (Direct(sels, matching) <==> name != "__typename" && matching(name))
  {
    var sels := [Field(name, [])];
    assert sels[1..] == [] && Entered(sels[0].selections, OWN + 3) == {};
    assert OwnFields(sels) == {name} && sels[0].name == name;
    assert HasField(sels, name);
    assert Direct(sels, matching) <==> Counts(sels[0], matching);
  }

  lemma {:induction false} StubIsSpreadable(doc: Fragments, rank: map<string, nat>, sels: seq<Selection>)
    requires forall n | n in AllSpreads(sels) :: n in doc && n in rank && rank[n] == 0
    ensures Spreadable(doc, rank, sels, 1)
  {
    if sels != [] {
      StubIsSpreadable(doc, rank, sels[1..]);
      assert sels == [sels[0]] + sels[1..];
      if !sels[0].Spread? {
        StubIsSpreadable(doc, rank, sels[0].selections);
      }
    }
  }

  lemma StubSelects(sels: seq<Selection>, special: set<string>, name: string, matching: string -> bool, n: string)
    requires n in AllSpreads(sels)
    ensures var doc := Stub(sels, special, name);
            Selects(doc, doc[n], matching) <==> n in special && name != "__typename" && matching(name)
    ensures var doc := Stub(sels, special, name);
            Asks(doc, doc[n], matching) <==> n in special && name != "__typename" && matching(name)
  {
    var doc: Fragments := Stub(sels, special, name);
    hide Selects, Asks;
    OneField(if n in special then name else "__typename", matching);
    SelectsUnfolds(doc, doc[n], matching);
    StubIsValid(sels, special, name);
    StraightRequestsAreAnswered(doc, doc[n], matching);
  }

  lemma HiddenFieldIsMissed(sels: seq<Selection>, f: string)
    requires f in OwnFields(sels) && f != "__typename" && !HasField(sels, f)
    ensures var doc, matching := Stub(sels, {}, f), (x: string) => x == f;
            Asks(doc, sels, matching) && !Selects(doc, sels, matching)
  {
    hide Selects;
    var doc, matching := Stub(sels, {}, f), (x: string) => x == f;
    assert AsksAlong(doc, sels, [], matching);
    SelectsUnfolds(doc, sels, matching);
    assert !Direct(sels, matching);
    forall n | n in doc ensures !Selects(doc, doc[n], matching) {
      StubSelects(sels, {}, f, matching, n);
    }
  }

  lemma LeakedSpreadIsFound(sels: seq<Selection>, n: string, name: string)
    requires n in Entered(sels, OWN) && n !in OwnSpreads(sels)
    requires name !in OwnFields(sels) && name != "__typename"
    ensures var doc, matching := Stub(sels, {n}, name), (x: string) => x == name;
            Selects(doc, sels, matching) && !Asks(doc, sels, matching)
  {
    hide Selects;
    var doc, matching := Stub(sels, {n}, name), (x: string) => x == name;
    EnteredAreSpread(sels, OWN);
    SelectsUnfolds(doc, sels, matching);
    StubSelects(sels, {n}, name, matching, n);
    forall names: seq<string> ensures !AsksAlong(doc, sels, names, matching) {
      if names != [] && names[0] in doc && names[0] != n {
        StubSelects(sels, {n}, name, matching, names[0]);
        assert !Asks(doc, doc[names[0]], matching);
      }
    }
  }

  lemma {:induction false} EnteredAreSpread(sels: seq<Selection>, depth: nat)
    ensures Entered(sels, depth) <= AllSpreads(sels)
  {
    if sels != [] {
      EnteredAreSpread(sels[1..], depth);
      if !sels[0].Spread? {
        EnteredAreSpread(sels[0].selections, depth + 3);
      }
    }
  }

  lemma NewName(names: set<string>) returns (name: string)
    ensures name !in names
  {
    var length := Longest(names);
    name := seq(length + 1, _ => 'a');
  }

  lemma {:induction false} Longest(names: set<string>) returns (length: nat)
    ensures forall n | n in names :: |n| <= length
  {
    if names == {} {
      length := 0;
    } else {
      var n :| n in names;
      length := Longest(names - {n});
      length := if |n| > length then |n| else length;
    }
  }

  // ---------------------------------------------------------------- one document

  /** Fragments that are spread one in the other, as GraphQL means it, the first in `sels`. */
  ghost predicate OwnChain(doc: Fragments, sels: seq<Selection>, names: seq<string>)
    decreases |names|
  {
    names != [] ==>
      names[0] in OwnSpreads(sels) && names[0] in doc && OwnChain(doc, doc[names[0]], names[1..])
  }

  ghost function OwnEnd(doc: Fragments, sels: seq<Selection>, names: seq<string>): seq<Selection>
    requires OwnChain(doc, sels, names)
    decreases |names|
  {
    if names == [] then sels else OwnEnd(doc, doc[names[0]], names[1..])
  }

  /** The field stands in the selection set itself, or in that of a fragment reached through entered spreads,
      outside inline fragments. */
  ghost predicate Stands(doc: Fragments, sels: seq<Selection>, name: string) {
    exists names: seq<string> :: Chain(doc, sels, names) && HasField(End(doc, sels, names), name)
  }

  /** The field is an own one of the selection set, or of a fragment reached through own spreads. */
  ghost predicate IsOwn(doc: Fragments, sels: seq<Selection>, name: string) {
    exists names: seq<string> :: OwnChain(doc, sels, names) && name in OwnFields(OwnEnd(doc, sels, names))
  }

  /** For one document and selection set: the visitor misses nothing, whatever is looked for, if and only if
      all own fields stand where it looks; and it makes nothing up if and only if all that stand there are
      own ones. */
  lemma DocumentIsAnsweredExactly(doc: Fragments, sels: seq<Selection>)
    ensures (forall matching: string -> bool :: Asks(doc, sels, matching) ==> Selects(doc, sels, matching))
            <==> forall f | f != "__typename" && IsOwn(doc, sels, f) :: Stands(doc, sels, f)
    ensures (forall matching: string -> bool :: Selects(doc, sels, matching) ==> Asks(doc, sels, matching))
            <==> forall f | f != "__typename" && Stands(doc, sels, f) :: IsOwn(doc, sels, f)
  {
    hide Asks, Selects, IsOwn, Stands;
    forall matching: string -> bool
      ensures Selects(doc, sels, matching) <==>
              exists f :: f != "__typename" && matching(f) && Stands(doc, sels, f)
      ensures Asks(doc, sels, matching) <==>
              exists f :: f != "__typename" && matching(f) && IsOwn(doc, sels, f)
    {
      SelectsByName(doc, sels, matching);
      AsksByName(doc, sels, matching);
    }
    if forall matching: string -> bool :: Asks(doc, sels, matching) ==> Selects(doc, sels, matching) {
      forall f | f != "__typename" && IsOwn(doc, sels, f) ensures Stands(doc, sels, f) {
        var matching := (x: string) => x == f;
        assert Asks(doc, sels, matching);
      }
    }
    if forall matching: string -> bool :: Selects(doc, sels, matching) ==> Asks(doc, sels, matching) {
      forall f | f != "__typename" && Stands(doc, sels, f) ensures IsOwn(doc, sels, f) {
        var matching := (x: string) => x == f;
        assert Selects(doc, sels, matching);
      }
    }
  }

  lemma SelectsByName(doc: Fragments, sels: seq<Selection>, matching: string -> bool)
    ensures Selects(doc, sels, matching) <==>
            exists f :: f != "__typename" && matching(f) && Stands(doc, sels, f)
  {
    if Selects(doc, sels, matching) {
      var names: seq<string> :| Chain(doc, sels, names) && Direct(End(doc, sels, names), matching);
      var end := End(doc, sels, names);
      var i :| 0 <= i < |end| && Counts(end[i], matching);
      assert HasField(end, end[i].name);
      assert Stands(doc, sels, end[i].name);
    }
    if f :| f != "__typename" && matching(f) && Stands(doc, sels, f) {
      var names: seq<string> :| Chain(doc, sels, names) && HasField(End(doc, sels, names), f);
      var end := End(doc, sels, names);
      var i :| 0 <= i < |end| && end[i].Field? && end[i].name == f;
      assert Counts(end[i], matching);
      assert Direct(end, matching);
    }
  }

  lemma AsksByName(doc: Fragments, sels: seq<Selection>, matching: string -> bool)
    ensures Asks(doc, sels, matching) <==>
            exists f :: f != "__typename" && matching(f) && IsOwn(doc, sels, f)
  {
    if Asks(doc, sels, matching) {
      var names: seq<string> :| AsksAlong(doc, sels, names, matching);
      AsksAlongChain(doc, sels, names, matching);
      var f :| f in OwnFields(OwnEnd(doc, sels, names)) && f != "__typename" && matching(f);
      assert IsOwn(doc, sels, f);
    }
    if f :| f != "__typename" && matching(f) && IsOwn(doc, sels, f) {
      var names: seq<string> :| OwnChain(doc, sels, names) && f in OwnFields(OwnEnd(doc, sels, names));
      AsksAlongChain(doc, sels, names, matching);
      assert AsksAlong(doc, sels, names, matching);
    }
  }

  lemma {:induction false} AsksAlongChain(doc: Fragments, sels: seq<Selection>, names: seq<string>,
                                          matching: string -> bool)
    ensures AsksAlong(doc, sels, names, matching) <==>
            OwnChain(doc, sels, names)
            && exists f :: f in OwnFields(OwnEnd(doc, sels, names)) && f != "__typename" && matching(f)
    decreases |names|
  {
    if names != [] && names[0] in doc {
      AsksAlongChain(doc, doc[names[0]], names[1..], matching);
    }
  }

  /** An inline fragment hides the fields written in it: only the
      spreads below it are looked into. */
  lemma InlineFragmentsHideFields(doc: Fragments, sub: seq<Selection>, matching: string -> bool)
    ensures Selects(doc, [Inline(sub)], matching) <==>
            exists n | n in Entered(sub, OWN + 3) && n in doc :: Selects(doc, doc[n], matching)
  {
    hide Selects;
    SelectsUnfolds(doc, [Inline(sub)], matching);
    assert [Inline(sub)][1..] == [];
    assert Entered([Inline(sub)], OWN) == Entered(sub, OWN + 3);
  }

  /** And a spread one level down counts as if it stood directly in the selection set: its fragment's
      fields are found although the root does not ask for them. */
  lemma NestedSpreadsLeak(doc: Fragments, f: string, n: string, matching: string -> bool)
    requires n in doc
    ensures Selects(doc, [Field(f, [Spread(n)])], matching) <==>
            (f != "__typename" && matching(f)) || Selects(doc, doc[n], matching)
    ensures Asks(doc, [Field(f, [Spread(n)])], matching) <==> f != "__typename" && matching(f)
  {
    var sels := [Field(f, [Spread(n)])];
    assert sels[1..] == [] && [Spread(n)][1..] == [];
    assert Counts(sels[0], matching) <==> f != "__typename" && matching(f);
    assert OwnFields(sels) == {f} && OwnSpreads(sels) == {};
    assert Entered(sels, OWN) == EnteredBy(sels[0], OWN) == Entered([Spread(n)], OWN + 3) == {n};
    SelectsUnfolds(doc, sels, matching);
    assert Direct(sels, matching) <==> Counts(sels[0], matching);
    assert AsksAlong(doc, sels, [], matching) <==> f != "__typename" && matching(f) by {
      assert f in OwnFields(sels);
    }
  }
}

/** Where a directive occurs in a document, by addresses, and which keys of the response lead there; the
    full paths of `DirectivePaths` are measured by it. */
module DirectiveOccurrences {
  import opened Wrappers
  import opened DirectivePaths

  /** A node is addressed by the indices of the selections that lead to it; a spot is one of its directives. */
  datatype Spot = Spot(addr: seq<nat>, directive: nat)

  function Children(sel: Selection): seq<Selection> {
    if sel.Spread? then [] else sel.selections
  }

  predicate IsNode(sels: seq<Selection>, addr: seq<nat>)
    decreases addr
  {
    addr != [] && addr[0] < |sels| && (|addr| == 1 || IsNode(Children(sels[addr[0]]), addr[1..]))
  }

  function NodeAt(sels: seq<Selection>, addr: seq<nat>): Selection
    requires IsNode(sels, addr)
    decreases addr
  {
    if |addr| == 1 then sels[addr[0]] else NodeAt(Children(sels[addr[0]]), addr[1..])
  }

  /** The keys of a response on the way to a node: for every field its alias, or its name if it has none. */
  function KeysAt(sels: seq<Selection>, addr: seq<nat>): Path
    requires IsNode(sels, addr)
    decreases addr
  {
    OwnKey(sels[addr[0]]) + if |addr| == 1 then [] else KeysAt(Children(sels[addr[0]]), addr[1..])
  }

  function OwnKey(sel: Selection): Path {
    match sel
    case Field(Some(alias), _, _, _) => [alias]
    case Field(None, name, _, _) => [name]
    case _ => []
  }

  predicate Marked(sels: seq<Selection>, wanted: string, s: Spot) {
    && IsNode(sels, s.addr)
    && s.directive < |NodeAt(sels, s.addr).directives|
    && NodeAt(sels, s.addr).directives[s.directive] == wanted
  }

  /** Document order of nodes: a node comes before what it contains. */
  predicate NodeBefore(a: seq<nat>, b: seq<nat>) {
    b != [] && (a == [] || a[0] < b[0] || (a[0] == b[0] && NodeBefore(a[1..], b[1..])))
  }

  predicate Before(s: Spot, t: Spot) {
    NodeBefore(s.addr, t.addr) || (s.addr == t.addr && s.directive < t.directive)
  }

  /** The occurrences of the directive, all of them, in document order. */
  ghost predicate Enumerates(sels: seq<Selection>, wanted: string, spots: seq<Spot>) {
    && (forall s :: s in spots <==> Marked(sels, wanted, s))
    && Ordered(spots)
  }

  ghost predicate Ordered(spots: seq<Spot>) {
    forall i, j | 0 <= i < j < |spots| :: Before(spots[i], spots[j])
  }

  /** The paths that lead to the spots, one by one. */
  ghost predicate LeadTo(paths: seq<Path>, sels: seq<Selection>, spots: seq<Spot>, prefix: Path) {
    && |paths| == |spots|
    && (forall s | s in spots :: IsNode(sels, s.addr))
    && forall n | 0 <= n < |paths| :: paths[n] == prefix + KeysAt(sels, spots[n].addr)
  }

  // ---------------------------------------------------------------- the parts of an enumeration

  /** The first node's own spots. */
  function Own(directives: seq<nat>): (spots: seq<Spot>)
    ensures |spots| == |directives|
    ensures forall s :: s in spots <==> s.addr == [0] && s.directive in directives
  {
    var spots := seq(|directives|, i requires 0 <= i < |directives| => Spot([0], directives[i]));
    assert forall k | k in directives :: Spot([0], k) in spots by {
      assert forall i | 0 <= i < |directives| :: spots[i] == Spot([0], directives[i]);
    }
    spots
  }

  /** Spots of the first node's children. */
  function Below(spots: seq<Spot>): (below: seq<Spot>)
    ensures |below| == |spots|
    ensures forall s :: s in below <==> s.addr != [] && s.addr[0] == 0 && Spot(s.addr[1..], s.directive) in spots
  {
    var below := seq(|spots|, i requires 0 <= i < |spots| => Spot([0] + spots[i].addr, spots[i].directive));
    assert forall i | 0 <= i < |spots| :: below[i].addr[1..] == spots[i].addr;
    assert forall s: Spot | s.addr != [] && s.addr[0] == 0 :: s == Spot([0] + s.addr[1..], s.directive);
    below
  }

  /** Spots of the nodes behind the first. */
  function Behind(spots: seq<Spot>): (behind: seq<Spot>)
    requires forall s | s in spots :: s.addr != []
    ensures |behind| == |spots|
    ensures forall s :: s in behind <==>
              s.addr != [] && s.addr[0] > 0 && Spot([s.addr[0] - 1] + s.addr[1..], s.directive) in spots
  {
    var behind := seq(|spots|, i requires 0 <= i < |spots| =>
                      Spot([spots[i].addr[0] + 1] + spots[i].addr[1..], spots[i].directive));
    assert forall i | 0 <= i < |spots| :: behind[i].addr[1..] == spots[i].addr[1..];
    assert forall s: Spot | s.addr != [] :: s.addr == [s.addr[0]] + s.addr[1..];
    behind
  }

  lemma {:induction false} OwnMarks(directives: seq<string>, wanted: string, path: Path) returns (at: seq<nat>)
    ensures forall k: nat :: k in at <==> k < |directives| && directives[k] == wanted
    ensures forall i, j | 0 <= i < j < |at| :: at[i] < at[j]
    ensures Marks(directives, wanted, path) == seq(|at|, _ => path)
  {
    if directives == [] {
      at := [];
    } else {
      var rest := OwnMarks(directives[1..], wanted, path);
      at := (if directives[0] == wanted then [0] else []) + Shifted(rest);
      ShiftedHolds(directives, rest, at, wanted);
    }
  }

  function Shifted(at: seq<nat>): (shifted: seq<nat>)
    ensures |shifted| == |at|
    ensures forall k: nat :: k in shifted <==> k > 0 && k - 1 in at
  {
    var shifted := seq(|at|, i requires 0 <= i < |at| => at[i] + 1);
    assert forall i | 0 <= i < |at| :: shifted[i] - 1 == at[i];
    shifted
  }

  lemma ShiftedHolds(directives: seq<string>, rest: seq<nat>, at: seq<nat>, wanted: string)
    requires directives != []
    requires forall k: nat :: k in rest <==> k < |directives| - 1 && directives[1..][k] == wanted
    requires at == (if directives[0] == wanted then [0] else []) + Shifted(rest)
    ensures forall k: nat :: k in at <==> k < |directives| && directives[k] == wanted
  {
    forall k: nat ensures k in at <==> k < |directives| && directives[k] == wanted {
      if k > 0 {
        assert k - 1 in rest <==> k < |directives| && directives[1..][k - 1] == wanted;
      }
    }
  }

  // ---------------------------------------------------------------- putting them together

  lemma MarkedIs(sels: seq<Selection>, wanted: string, at: seq<nat>, below: seq<Spot>, behind: seq<Spot>, s: Spot)
    requires sels != []
    requires forall k: nat :: k in at <==> k < |sels[0].directives| && sels[0].directives[k] == wanted
    requires Enumerates(Children(sels[0]), wanted, below) && Enumerates(sels[1..], wanted, behind)
    ensures Marked(sels, wanted, s) <==> s in Own(at) || s in Below(below) || s in Behind(behind)
  {
    if s.addr != [] {
      if s.addr[0] == 0 {
        assert s.addr == [0] + s.addr[1..];
        assert Spot(s.addr[1..], s.directive) in below <==>
               Marked(Children(sels[0]), wanted, Spot(s.addr[1..], s.directive));
      } else {
        var t := Spot([s.addr[0] - 1] + s.addr[1..], s.directive);
        assert t.addr[1..] == s.addr[1..];
        assert t in behind <==> Marked(sels[1..], wanted, t);
      }
    }
  }

  lemma OrderedConcat(a: seq<Spot>, b: seq<Spot>)
    requires Ordered(a) && Ordered(b) && forall s, t | s in a && t in b :: Before(s, t)
    ensures Ordered(a + b)
  {
    hide Before;
    forall i, j | 0 <= i < j < |a + b| ensures Before((a + b)[i], (a + b)[j]) {
      if i < |a| <= j {
        assert a[i] in a && b[j - |a|] in b;
      }
    }
  }

  lemma PartsAreOrdered(at: seq<nat>, below: seq<Spot>, behind: seq<Spot>)
    requires forall i, j | 0 <= i < j < |at| :: at[i] < at[j]
    requires Ordered(below) && Ordered(behind) && forall s | s in behind :: s.addr != []
    ensures Ordered(Own(at)) && Ordered(Below(below)) && Ordered(Behind(behind))
  {
    forall i, j | 0 <= i < j < |below| ensures Before(Below(below)[i], Below(below)[j]) {
      assert Below(below)[i].addr[1..] == below[i].addr && Below(below)[j].addr[1..] == below[j].addr;
      assert Before(below[i], below[j]);
    }
    forall i, j | 0 <= i < j < |behind| ensures Before(Behind(behind)[i], Behind(behind)[j]) {
      assert Behind(behind)[i].addr[1..] == behind[i].addr[1..] && Behind(behind)[j].addr[1..] == behind[j].addr[1..];
      assert behind[i] in behind && behind[j] in behind;
      assert Before(behind[i], behind[j]);
    }
  }

  lemma AllOrdered(at: seq<nat>, below: seq<Spot>, behind: seq<Spot>)
    requires forall i, j | 0 <= i < j < |at| :: at[i] < at[j]
    requires Ordered(below) && Ordered(behind) && forall s | s in below + behind :: s.addr != []
    ensures Ordered(Own(at) + Below(below) + Behind(behind))
  {
    hide Ordered, Before;
    var own, low, far := Own(at), Below(below), Behind(behind);
    assert forall s | s in behind :: s in below + behind;
    assert forall s | s in below :: s in below + behind;
    PartsAreOrdered(at, below, behind);
    forall s, t | s in own && t in low ensures Before(s, t) {
      assert t.addr[1..] != [] by {
        assert Spot(t.addr[1..], t.directive) in below;
      }
      OwnComesFirst(s, t);
    }
    OrderedConcat(own, low);
    forall s, t | s in own + low && t in far ensures Before(s, t) {
      FirstNodeComesFirst(s, t);
    }
    OrderedConcat(own + low, far);
  }

  lemma OwnComesFirst(s: Spot, t: Spot)
    requires s.addr == [0] && t.addr != [] && t.addr[0] == 0 && t.addr[1..] != []
    ensures Before(s, t)
  {
    assert s.addr[1..] == [];
  }

  lemma FirstNodeComesFirst(s: Spot, t: Spot)
    requires s.addr != [] && t.addr != [] && s.addr[0] == 0 < t.addr[0]
    ensures Before(s, t)
  {
  }

  lemma PartsLead(sels: seq<Selection>, prefix: Path, path: Path, at: seq<nat>, below: seq<Spot>, behind: seq<Spot>,
                  low: seq<Path>, far: seq<Path>)
    requires sels != [] && path == prefix + OwnKey(sels[0])
    requires LeadTo(low, Children(sels[0]), below, path) && LeadTo(far, sels[1..], behind, prefix)
    ensures LeadTo(seq(|at|, _ => path), sels, Own(at), prefix)
    ensures LeadTo(low, sels, Below(below), prefix)
    ensures LeadTo(far, sels, Behind(behind), prefix)
  {
    assert path == prefix + (OwnKey(sels[0]) + []);
    forall n | 0 <= n < |below|
      ensures IsNode(sels, Below(below)[n].addr) && low[n] == prefix + KeysAt(sels, Below(below)[n].addr)
    {
      assert below[n] in below && Below(below)[n].addr[1..] == below[n].addr;
      var keys := KeysAt(Children(sels[0]), below[n].addr);
      assert path + keys == prefix + (OwnKey(sels[0]) + keys);
    }
    forall n | 0 <= n < |behind|
      ensures IsNode(sels, Behind(behind)[n].addr) && far[n] == prefix + KeysAt(sels, Behind(behind)[n].addr)
    {
      assert behind[n] in behind && Behind(behind)[n].addr[1..] == behind[n].addr[1..];
    }
  }

  lemma LeadConcat(p: seq<Path>, q: seq<Path>, sels: seq<Selection>, s: seq<Spot>, t: seq<Spot>, prefix: Path)
    requires LeadTo(p, sels, s, prefix) && LeadTo(q, sels, t, prefix)
    ensures LeadTo(p + q, sels, s + t, prefix)
  {
    hide IsNode, KeysAt;
  }

  /** The full paths lead to the occurrences of the directive, all of them, in document order, by the keys
      of the response. */
  lemma {:induction false} PathsLeadToOccurrences(sels: seq<Selection>, wanted: string, prefix: Path)
      returns (spots: seq<Spot>)
    ensures Enumerates(sels, wanted, spots)
    ensures LeadTo(FullPaths(sels, wanted, prefix), sels, spots, prefix)
    decreases sels
  {
    if sels == [] {
      spots := [];
    } else {
      hide Enumerates, LeadTo, Marks, Own, Below, Behind;
      var path := prefix + OwnKey(sels[0]);
      var at := OwnMarks(sels[0].directives, wanted, path);
      var below := [];
      if sels[0].Spread? {
        NoneIn(wanted, path);
      } else {
        below := PathsLeadToOccurrences(sels[0].selections, wanted, path);
      }
      var behind := PathsLeadToOccurrences(sels[1..], wanted, prefix);
      FirstPaths(sels[0], wanted, prefix);
      spots := Assembled(sels, wanted, prefix, at, below, behind);
    }
  }

  lemma NoneIn(wanted: string, prefix: Path)
    ensures Enumerates([], wanted, []) && LeadTo(FullPaths([], wanted, prefix), [], [], prefix)
  {
  }

  lemma FirstPaths(sel: Selection, wanted: string, prefix: Path)
    ensures var path := prefix + OwnKey(sel);
            FullPathsIn(sel, wanted, prefix) ==
            Marks(sel.directives, wanted, path) + FullPaths(Children(sel), wanted, path)
  {
    hide Marks;
    assert prefix + [] == prefix;
    assert Marks(sel.directives, wanted, prefix) + [] == Marks(sel.directives, wanted, prefix);
  }

  lemma Assembled(sels: seq<Selection>, wanted: string, prefix: Path,
                  at: seq<nat>, below: seq<Spot>, behind: seq<Spot>) returns (spots: seq<Spot>)
    requires sels != []
    requires forall k: nat :: k in at <==> k < |sels[0].directives| && sels[0].directives[k] == wanted
    requires forall i, j | 0 <= i < j < |at| :: at[i] < at[j]
    requires var path := prefix + OwnKey(sels[0]);
             && Marks(sels[0].directives, wanted, path) == seq(|at|, _ => path)
             && LeadTo(FullPaths(Children(sels[0]), wanted, path), Children(sels[0]), below, path)
             && FullPathsIn(sels[0], wanted, prefix) ==
                Marks(sels[0].directives, wanted, path) + FullPaths(Children(sels[0]), wanted, path)
    requires LeadTo(FullPaths(sels[1..], wanted, prefix), sels[1..], behind, prefix)
    requires Enumerates(Children(sels[0]), wanted, below) && Enumerates(sels[1..], wanted, behind)
    ensures Enumerates(sels, wanted, spots)
    ensures LeadTo(FullPaths(sels, wanted, prefix), sels, spots, prefix)
  {
    hide Marked, Before, IsNode, KeysAt, Marks, FullPathsIn;
    var path := prefix + OwnKey(sels[0]);
    var low, far := FullPaths(Children(sels[0]), wanted, path), FullPaths(sels[1..], wanted, prefix);
    forall s | s in below + behind ensures s.addr != [] {
      NodesHaveAddresses(Children(sels[0]), sels[1..], wanted, s);
    }
    spots := Own(at) + Below(below) + Behind(behind);
    forall s ensures s in spots <==> Marked(sels, wanted, s) {
      MarkedIs(sels, wanted, at, below, behind, s);
    }
    AllOrdered(at, below, behind);
    PartsLead(sels, prefix, path, at, below, behind, low, far);
    LeadConcat(seq(|at|, _ => path), low, sels, Own(at), Below(below), prefix);
    LeadConcat(seq(|at|, _ => path) + low, far, sels, Own(at) + Below(below), Behind(behind), prefix);
  }

  lemma NodesHaveAddresses(a: seq<Selection>, b: seq<Selection>, wanted: string, s: Spot)
    requires Marked(a, wanted, s) || Marked(b, wanted, s)
    ensures s.addr != []
  {
  }

  // ---------------------------------------------------------------- documents

  /** A definition holds its directives and selections as an inline fragment does. */
  function AsSelections(doc: Document): seq<Selection> {
    seq(|doc|, i requires 0 <= i < |doc| => Inline(doc[i].directives, doc[i].selections))
  }

  lemma {:induction false} DocumentPathsAre(doc: Document, wanted: string)
    ensures DocumentPaths(doc, wanted) == FullPaths(AsSelections(doc), wanted, [])
  {
    if doc != [] {
      DocumentPathsAre(doc[1..], wanted);
      assert AsSelections(doc)[1..] == AsSelections(doc[1..]);
    }
  }

  /** The full paths of a document lead, by the keys of the response, to the occurrences of the directive:
      to each one, in document order. */
  lemma DocumentPathsLeadToOccurrences(doc: Document, wanted: string) returns (spots: seq<Spot>)
    ensures Enumerates(AsSelections(doc), wanted, spots)
    ensures LeadTo(DocumentPaths(doc, wanted), AsSelections(doc), spots, [])
  {
    DocumentPathsAre(doc, wanted);
    spots := PathsLeadToOccurrences(AsSelections(doc), wanted, []);
  }

  /** So the path to the principal field is empty where the directive does not occur, and otherwise leads to
      the occurrence that comes before all others. */
  lemma PrincipalPathLeadsToTheFirst(doc: Document) returns (first: Option<Spot>)
    ensures first == None ==> forall s :: !Marked(AsSelections(doc), "principalField", s)
    ensures first == None ==> First(DocumentPaths(doc, "principalField")) == []
    ensures first.Some? ==>
              && Marked(AsSelections(doc), "principalField", first.value)
              && (forall s | Marked(AsSelections(doc), "principalField", s) ::
                    s == first.value || Before(first.value, s))
              && First(DocumentPaths(doc, "principalField")) == KeysAt(AsSelections(doc), first.value.addr)
  {
    hide Before, KeysAt, IsNode, Marked;
    var spots := DocumentPathsLeadToOccurrences(doc, "principalField");
    if spots == [] {
      first := None;
    } else {
      first := Some(spots[0]);
      assert spots[0] in spots;
      var keys := KeysAt(AsSelections(doc), spots[0].addr);
      assert [] + keys == keys;
      forall s | Marked(AsSelections(doc), "principalField", s) ensures s == spots[0] || Before(spots[0], s) {
        var i :| 0 <= i < |spots| && spots[i] == s;
      }
    }
  }
}

/** Where in a selection set the names stand that `Selections` collects: which spreads the visitor enters, and
    which fields and spreads are a selection set's own. */
module SelectionAddresses {
  import opened Wrappers
  import opened Selections

  function Below(sel: Selection): seq<Selection> {
    if sel.Spread? then [] else sel.selections
  }

  /** The node at the end of the indices that lead to it. */
  function NodeAt(sels: seq<Selection>, addr: seq<nat>): Option<Selection>
    decreases addr
  {
    if addr == [] || addr[0] >= |sels| then None
    else if |addr| == 1 then Some(sels[addr[0]])
    else NodeAt(Below(sels[addr[0]]), addr[1..])
  }

  /** The nodes on the way, from level `from` on, are inline fragments. */
  predicate Inlined(sels: seq<Selection>, addr: seq<nat>, from: nat) {
    forall k | from <= k < |addr| :: NodeAt(sels, addr[..k]).Some? && NodeAt(sels, addr[..k]).value.Inline?
  }

  lemma BelowFirst(sels: seq<Selection>, addr: seq<nat>, k: nat)
    requires 2 <= k <= |addr| && addr[0] < |sels|
    ensures NodeAt(sels, addr[..k]) == NodeAt(Below(sels[addr[0]]), addr[1..][..k - 1])
  {
    assert addr[..k][1..] == addr[1..][..k - 1];
  }

  /** Inline below the first node, and the first too if `from` says so. */
  lemma InlinedBelow(sels: seq<Selection>, addr: seq<nat>, from: nat)
    requires 1 <= from <= 2 && |addr| >= 2 && addr[0] < |sels|
    ensures Inlined(sels, addr, from) <==>
            (from == 1 ==> sels[addr[0]].Inline?) && Inlined(Below(sels[addr[0]]), addr[1..], 1)
  {
    var sub := Below(sels[addr[0]]);
    forall k | 2 <= k < |addr| ensures NodeAt(sels, addr[..k]) == NodeAt(sub, addr[1..][..k - 1]) {
      BelowFirst(sels, addr, k);
    }
    assert addr[..1] == [addr[0]];
    if Inlined(sels, addr, from) {
      forall k | 1 <= k < |addr[1..]|
        ensures NodeAt(sub, addr[1..][..k]).Some? && NodeAt(sub, addr[1..][..k]).value.Inline?
      {
        assert NodeAt(sels, addr[..k + 1]) == NodeAt(sub, addr[1..][..k]);
      }
    }
  }

  /** What a way to a node consists of: the node itself, or one below an inline fragment, or, if `from` lets
      the first node be anything, below a field. */
  predicate Leads(sels: seq<Selection>, from: nat, addr: seq<nat>, node: Selection) {
    NodeAt(sels, addr) == Some(node) && Inlined(sels, addr, from)
  }

  lemma LeadsOn(sels: seq<Selection>, i: nat, from: nat, addr: seq<nat>, node: Selection)
    requires i < |sels| && 1 <= from <= 2 && (sels[i].Inline? || (from == 2 && sels[i].Field?))
    requires Leads(Below(sels[i]), 1, addr, node)
    ensures Leads(sels, from, [i] + addr, node)
  {
    assert ([i] + addr)[1..] == addr;
    InlinedBelow(sels, [i] + addr, from);
  }

  lemma LeadsHere(sels: seq<Selection>, i: nat, from: nat)
    requires i < |sels| && from >= 1
    ensures Leads(sels, from, [i], sels[i])
  {
  }

  // ---------------------------------------------------------------- the spreads entered

  lemma {:induction false} EnteredFrom(sels: seq<Selection>, depth: nat, n: string) returns (i: nat)
    requires n in Entered(sels, depth)
    ensures i < |sels| && n in EnteredBy(sels[i], depth)
  {
    if n in EnteredBy(sels[0], depth) {
      i := 0;
    } else {
      i := EnteredFrom(sels[1..], depth, n);
      i := i + 1;
    }
  }

  lemma {:induction false} EnteredAll(sels: seq<Selection>, depth: nat, i: nat)
    requires i < |sels|
    ensures EnteredBy(sels[i], depth) <= Entered(sels, depth)
  {
    if i > 0 {
      EnteredAll(sels[1..], depth, i - 1);
    }
  }

  lemma {:induction false} EnteredLeads(sels: seq<Selection>, depth: nat, n: string) returns (addr: seq<nat>)
    requires n in Entered(sels, depth) && depth >= 3
    ensures Leads(sels, if depth == 3 then 2 else 1, addr, Spread(n))
    decreases sels
  {
    hide Leads, Entered;
    var i := EnteredFrom(sels, depth, n);
    var from := if depth == 3 then 2 else 1;
    if sels[i].Spread? {
      addr := [i];
      LeadsHere(sels, i, from);
    } else {
      addr := EnteredLeads(sels[i].selections, depth + 3, n);
      LeadsOn(sels, i, from, addr, Spread(n));
      addr := [i] + addr;
    }
  }

  lemma {:induction false} LeadsToEntered(sels: seq<Selection>, depth: nat, n: string, addr: seq<nat>)
    requires Leads(sels, if depth == 3 then 2 else 1, addr, Spread(n)) && depth >= 3
    ensures n in Entered(sels, depth)
    decreases addr
  {
    hide Entered;
    EnteredAll(sels, depth, addr[0]);
    if |addr| > 1 {
      InlinedBelow(sels, addr, if depth == 3 then 2 else 1);
      LeadsToEntered(Below(sels[addr[0]]), depth + 3, n, addr[1..]);
      assert !sels[addr[0]].Spread?;
    }
  }

  /** The visitor enters a spread if and only if all nodes on the way to it, but for the first, are inline
      fragments: the first may be a field too. */
  lemma EnteredExactly(sels: seq<Selection>, n: string)
    ensures n in Entered(sels, OWN) <==>
            exists addr :: NodeAt(sels, addr) == Some(Spread(n)) && Inlined(sels, addr, 2)
  {
    if n in Entered(sels, OWN) {
      var addr := EnteredLeads(sels, OWN, n);
      assert NodeAt(sels, addr) == Some(Spread(n));
    }
    if addr :| NodeAt(sels, addr) == Some(Spread(n)) && Inlined(sels, addr, 2) {
      LeadsToEntered(sels, OWN, n, addr);
    }
  }

  // ---------------------------------------------------------------- own fields and spreads

  lemma {:induction false} OwnLeads(sels: seq<Selection>, name: string, spread: bool)
      returns (addr: seq<nat>, node: Selection)
    requires name in if spread then OwnSpreads(sels) else OwnFields(sels)
    ensures Leads(sels, 1, addr, node) && node.Spread? == spread && !node.Inline? && node.name == name
    decreases sels
  {
    hide Leads;
    var own := if sels[0].Inline? then if spread then OwnSpreads(sels[0].selections) else OwnFields(sels[0].selections)
               else if sels[0].Spread? == spread then {sels[0].name} else {};
    if name in own {
      if sels[0].Inline? {
        addr, node := OwnLeads(sels[0].selections, name, spread);
        LeadsOn(sels, 0, 1, addr, node);
        addr := [0] + addr;
      } else {
        addr, node := [0], sels[0];
        LeadsHere(sels, 0, 1);
      }
    } else {
      addr, node := OwnLeads(sels[1..], name, spread);
      LeadsBehind(sels, addr, node);
      addr := [addr[0] + 1] + addr[1..];
    }
  }

  lemma LeadsBehind(sels: seq<Selection>, addr: seq<nat>, node: Selection)
    requires sels != [] && Leads(sels[1..], 1, addr, node)
    ensures addr != [] && Leads(sels, 1, [addr[0] + 1] + addr[1..], node)
  {
    var to := [addr[0] + 1] + addr[1..];
    assert to[1..] == addr[1..];
    if |addr| > 1 {
      InlinedBelow(sels[1..], addr, 1);
      InlinedBelow(sels, to, 1);
    }
  }

  lemma {:induction false} OwnAll(sels: seq<Selection>, i: nat)
    requires i < |sels|
    ensures sels[i].Field? ==> sels[i].name in OwnFields(sels)
    ensures sels[i].Spread? ==> sels[i].name in OwnSpreads(sels)
    ensures sels[i].Inline? ==>
              OwnFields(sels[i].selections) <= OwnFields(sels) && OwnSpreads(sels[i].selections) <= OwnSpreads(sels)
  {
    if i > 0 {
      OwnAll(sels[1..], i - 1);
    }
  }

  lemma {:induction false} LeadsToOwn(sels: seq<Selection>, addr: seq<nat>, node: Selection)
    requires Leads(sels, 1, addr, node) && !node.Inline?
    ensures node.name in if node.Spread? then OwnSpreads(sels) else OwnFields(sels)
    decreases addr
  {
    hide OwnSpreads, OwnFields;
    OwnAll(sels, addr[0]);
    if |addr| > 1 {
      InlinedBelow(sels, addr, 1);
      LeadsToOwn(Below(sels[addr[0]]), addr[1..], node);
    }
  }

  /** A selection set's own fields are those to which only inline fragments lead. */
  lemma OwnFieldsExactly(sels: seq<Selection>, name: string)
    ensures name in OwnFields(sels) <==>
            exists addr, sub :: NodeAt(sels, addr) == Some(Field(name, sub)) && Inlined(sels, addr, 1)
  {
    if name in OwnFields(sels) {
      var addr, node := OwnLeads(sels, name, false);
      assert NodeAt(sels, addr) == Some(Field(name, node.selections));
    }
    if addr, sub :| NodeAt(sels, addr) == Some(Field(name, sub)) && Inlined(sels, addr, 1) {
      LeadsToOwn(sels, addr, Field(name, sub));
    }
  }

  /** So are its own spreads. */
  lemma OwnSpreadsExactly(sels: seq<Selection>, name: string)
    ensures name in OwnSpreads(sels) <==>
            exists addr :: NodeAt(sels, addr) == Some(Spread(name)) && Inlined(sels, addr, 1)
  {
    if name in OwnSpreads(sels) {
      var addr, node := OwnLeads(sels, name, true);
      assert NodeAt(sels, addr) == Some(Spread(name));
    }
    if addr :| NodeAt(sels, addr) == Some(Spread(name)) && Inlined(sels, addr, 1) {
      LeadsToOwn(sels, addr, Spread(name));
    }
  }
}

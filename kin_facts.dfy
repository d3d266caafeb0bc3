/** The family relations behind US17, US18, US19 and US20: who is a child,
    sibling, cousin or descendant of whom, and which of those marriages
    each check reports. */
module KinFacts {
  import opened Wrappers
  import opened Strings
  import opened Dates
  import opened Messages
  import opened Records
  import opened Rules
  import RuleFacts
  import RuleTriggers
  import RuleScans

  /** `k` is a child of a family that `a` is a spouse in. */
  ghost predicate ChildOf(t: Tables, k: string, a: string)
  {
    a in t.inds && exists fam :: fam in t.inds[a].fams && fam in t.fams && k in t.fams[fam].chil
  }

  /** The current spouse of the individual `k`, as `get_spouse` finds it. */
  function CurrentSpouse(t: Tables, k: string): Result<Option<string>, Crash>
    requires k in t.inds
  {
    SpouseIn(t, t.inds[k], Sorted(t.inds[k].fams))
  }

  /** `get_childrenID(a)` lists exactly the children of `a`. */
  lemma ChildrenIdsMembers(t: Tables, a: string, k: string)
    ensures ChildrenIds(t, a).Ok? ==> (k in ChildrenIds(t, a).value <==> ChildOf(t, k, a))
  {
    if ChildrenIds(t, a).Ok? {
      var fams := Sorted(t.inds[a].fams);
      RuleFacts.ChildrenOfMembers(t, fams, [], k);
      SortedMembers(t.inds[a].fams);
      if k in ChildrenIds(t, a).value {
        var j :| 0 <= j < |fams| && fams[j] in t.fams && k in t.fams[fams[j]].chil;
        assert fams[j] in t.inds[a].fams;
      }
      if ChildOf(t, k, a) {
        var fam :| fam in t.inds[a].fams && fam in t.fams && k in t.fams[fam].chil;
        var j :| 0 <= j < |fams| && fams[j] == fam;
      }
    }
  }

  // ---------------------------------------------------------------------------
  // US18
  // ---------------------------------------------------------------------------

  /** US18 for one family `f` of the individual `pid`: one message exactly
      when a spouse of `f` other than `pid` is a child of the family `pid`
      grew up in, naming the husband if he is one and the wife otherwise.
      Only a spouse who is such a child is looked up; a missing family or
      spouse raises `KeyError`. */
  lemma SiblingSpouseIff(t: Tables, pid: string, p: IndiRec, f: FamRec, acc: seq<Message>)
    ensures p.famc.None? ==> SiblingSpouse(t, pid, p, f, acc) == Ok(acc)
    ensures var r := SiblingSpouse(t, pid, p, f, acc);
      p.famc.Some? ==>
        (r.Ok? <==>
           Union(t, p.famc).Ok?
           && (f.husb.Some? && f.husb.value in t.fams[p.famc.value].chil ==> f.husb.value in t.inds)
           && (f.wife.Some? && f.wife.value in t.fams[p.famc.value].chil && !(f.husb.Some? && f.husb.value in t.fams[p.famc.value].chil && f.husb.value != pid)
               ==> f.wife.value in t.inds))
        && (r.Err? ==> r.error == KeyError)
    ensures var r := SiblingSpouse(t, pid, p, f, acc);
      r.Ok? && p.famc.Some? ==>
        var siblings := t.fams[p.famc.value].chil;
        var byHusband := f.husb.Some? && f.husb.value in siblings && f.husb.value != pid;
        var byWife := f.wife.Some? && f.wife.value in siblings && f.wife.value != pid;
        |r.value| == |acc| + RuleTriggers.Indicator(byHusband || byWife)
        && (byHusband ==> r.value == acc + [MarriedToSibling(Show(p.name), Show(t.inds[f.husb.value].name))])
        && (!byHusband && byWife ==> r.value == acc + [MarriedToSibling(Show(p.name), Show(t.inds[f.wife.value].name))])
  {
  }

  // ---------------------------------------------------------------------------
  // US20
  // ---------------------------------------------------------------------------

  /** `k` is an individual whose current spouse is one of `siblings`. */
  predicate MarriedInto(t: Tables, k: string, siblings: set<string>)
  {
    k in t.inds && CurrentSpouse(t, k).Ok? && CurrentSpouse(t, k).value.Some? && CurrentSpouse(t, k).value.value in siblings
  }

  /** Every one of `kids` is an individual whose current spouse can be found. */
  predicate SpousesKnown(t: Tables, kids: seq<string>)
  {
    forall j :: 0 <= j < |kids| ==> kids[j] in t.inds && CurrentSpouse(t, kids[j]).Ok?
  }

  /** US20 for the children `kids` of one sibling: it raises `KeyError`
      unless every child and the families looked at for the current spouse
      exist. */
  lemma {:induction false} MarriedIntoSiblingsRaises(t: Tables, siblings: set<string>, kids: seq<string>, acc: seq<Message>)
    ensures MarriedIntoSiblings(t, siblings, kids, acc).Ok? <==> SpousesKnown(t, kids)
    ensures var r := MarriedIntoSiblings(t, siblings, kids, acc);
      r.Err? ==> r.error == KeyError
    decreases |kids|
  {
    if kids != [] && kids[0] in t.inds && CurrentSpouse(t, kids[0]).Ok? {
      var k := kids[0];
      var acc1 := if MarriedInto(t, k, siblings) then acc + [MarriedToAuntOrUncle(Show(t.inds[k].name))] else acc;
      MarriedIntoSiblingsRaises(t, siblings, kids[1..], acc1);
      assert MarriedIntoSiblings(t, siblings, kids, acc) == MarriedIntoSiblings(t, siblings, kids[1..], acc1);
      assert forall j :: 1 <= j < |kids| ==> kids[j] == kids[1..][j - 1];
      if SpousesKnown(t, kids[1..]) {
        assert SpousesKnown(t, kids);
      }
    } else if kids != [] {
      assert !SpousesKnown(t, kids);
    }
  }

  /** The messages of a scan that gives at most one message per item:
      `added` holds exactly the messages in `outs`. */
  ghost predicate Listed<M(!new)>(outs: seq<Option<M>>, added: seq<M>)
  {
    forall m :: m in added <==> exists j :: 0 <= j < |outs| && outs[j] == Some(m)
  }

  /** One step of such a scan: the first item's message, if any, followed
      by those of the rest. */
  lemma ListedStep<M(!new)>(outs: seq<Option<M>>, acc: seq<M>, acc1: seq<M>, all: seq<M>)
    requires outs != [] && acc <= acc1 <= all
    requires acc1 == if outs[0].Some? then acc + [outs[0].value] else acc
    requires Listed(outs[1..], all[|acc1|..])
    ensures Listed(outs, all[|acc|..])
  {
    assert all[|acc|..] == acc1[|acc|..] + all[|acc1|..];
    forall m
      ensures m in all[|acc|..] <==> exists j :: 0 <= j < |outs| && outs[j] == Some(m)
    {
      if m in all[|acc|..] {
        if m in acc1[|acc|..] {
          assert outs[0] == Some(m);
        } else {
          assert m in all[|acc1|..];
          var j :| 0 <= j < |outs[1..]| && outs[1..][j] == Some(m);
          assert outs[j + 1] == Some(m);
        }
      }
      if exists j :: 0 <= j < |outs| && outs[j] == Some(m) {
        var j :| 0 <= j < |outs| && outs[j] == Some(m);
        if j == 0 {
          assert acc1[|acc|..] == [m];
        } else {
          assert outs[1..][j - 1] == Some(m);
        }
      }
    }
  }

  /** The message US20 gives for the child `k`, if any. */
  function AuntOrUncleOut(t: Tables, siblings: set<string>, k: string): (r: Option<Message>)
    ensures r.Some? <==> MarriedInto(t, k, siblings)
    ensures r.Some? ==> r.value == MarriedToAuntOrUncle(Show(t.inds[k].name))
  {
    if MarriedInto(t, k, siblings) then Some(MarriedToAuntOrUncle(Show(t.inds[k].name))) else None
  }

  /** The messages US20 gives for the children `kids`, child by child. */
  function AuntOrUncleOuts(t: Tables, siblings: set<string>, kids: seq<string>): (r: seq<Option<Message>>)
    ensures |r| == |kids|
    ensures forall j :: 0 <= j < |kids| ==> r[j] == AuntOrUncleOut(t, siblings, kids[j])
    decreases |kids|
  {
    if kids == [] then []
    else [AuntOrUncleOut(t, siblings, kids[0])] + AuntOrUncleOuts(t, siblings, kids[1..])
  }

  /** US20 for the children `kids` of one sibling, as a scan. */
  lemma {:induction false} MarriedIntoSiblingsListed(t: Tables, siblings: set<string>, kids: seq<string>, acc: seq<Message>)
    ensures var r := MarriedIntoSiblings(t, siblings, kids, acc);
      r.Ok? ==> Listed(AuntOrUncleOuts(t, siblings, kids), r.value[|acc|..])
    decreases |kids|
  {
    var r := MarriedIntoSiblings(t, siblings, kids, acc);
    if kids != [] && kids[0] in t.inds && CurrentSpouse(t, kids[0]).Ok? && r.Ok? {
      var outs := AuntOrUncleOuts(t, siblings, kids);
      var acc1 := if outs[0].Some? then acc + [outs[0].value] else acc;
      assert r == MarriedIntoSiblings(t, siblings, kids[1..], acc1);
      MarriedIntoSiblingsListed(t, siblings, kids[1..], acc1);
      assert outs[1..] == AuntOrUncleOuts(t, siblings, kids[1..]);
      ListedStep(outs, acc, acc1, r.value);
    }
  }

  /** `m` is the message US20 gives for one of the children `kids`. */
  ghost predicate ChildMessage(t: Tables, siblings: set<string>, kids: seq<string>, m: Message)
  {
    exists j :: 0 <= j < |kids| && MarriedInto(t, kids[j], siblings) && m == MarriedToAuntOrUncle(Show(t.inds[kids[j]].name))
  }

  /** US20 for the children `kids` of one sibling: each child whose current
      spouse is one of `siblings` is reported, and nothing else. */
  lemma MarriedIntoSiblingsAdded(t: Tables, siblings: set<string>, kids: seq<string>, acc: seq<Message>)
    ensures var r := MarriedIntoSiblings(t, siblings, kids, acc);
      r.Ok? ==> forall m :: m in r.value[|acc|..] <==> ChildMessage(t, siblings, kids, m)
  {
    var r := MarriedIntoSiblings(t, siblings, kids, acc);
    MarriedIntoSiblingsListed(t, siblings, kids, acc);
    if r.Ok? {
      var outs := AuntOrUncleOuts(t, siblings, kids);
      forall m
        ensures m in r.value[|acc|..] <==> ChildMessage(t, siblings, kids, m)
      {
        if m in r.value[|acc|..] {
          var j :| 0 <= j < |outs| && outs[j] == Some(m);
          assert MarriedInto(t, kids[j], siblings) && m == MarriedToAuntOrUncle(Show(t.inds[kids[j]].name));
        }
        if ChildMessage(t, siblings, kids, m) {
          var j :| 0 <= j < |kids| && MarriedInto(t, kids[j], siblings) && m == MarriedToAuntOrUncle(Show(t.inds[kids[j]].name));
          assert outs[j] == Some(m);
        }
      }
    }
  }

  /** US20 for the siblings `sibs`: it raises nothing but `KeyError`. */
  lemma {:induction false} AuntsAndUnclesRaises(t: Tables, siblings: set<string>, sibs: seq<string>, acc: seq<Message>)
    ensures var r := AuntsAndUncles(t, siblings, sibs, acc);
      r.Err? ==> r.error == KeyError
    decreases |sibs|
  {
    if sibs != [] && ChildrenIds(t, sibs[0]).Ok? {
      var kids := ChildrenIds(t, sibs[0]).value;
      var first := MarriedIntoSiblings(t, siblings, kids, acc);
      MarriedIntoSiblingsRaises(t, siblings, kids, acc);
      if first.Ok? {
        AuntsAndUnclesRaises(t, siblings, sibs[1..], first.value);
      }
    }
  }

  /** `k` is a child of the sibling `a`, one of `sibs`, married into `siblings`. */
  ghost predicate NephewMarriedIn(t: Tables, siblings: set<string>, sibs: seq<string>, a: string, k: string)
  {
    a in sibs && ChildOf(t, k, a) && MarriedInto(t, k, siblings)
  }

  /** `m` is the message US20 gives for a child of one of `sibs`. */
  ghost predicate NephewMessage(t: Tables, siblings: set<string>, sibs: seq<string>, m: Message)
  {
    exists a, k :: NephewMarriedIn(t, siblings, sibs, a, k) && m == MarriedToAuntOrUncle(Show(t.inds[k].name))
  }

  /** A message for a child of the first of `sibs` is one for a child of
      one of `sibs`. */
  lemma NephewOfFirst(t: Tables, siblings: set<string>, sibs: seq<string>, m: Message)
    requires sibs != [] && ChildrenIds(t, sibs[0]).Ok?
    ensures ChildMessage(t, siblings, ChildrenIds(t, sibs[0]).value, m) ==> NephewMessage(t, siblings, sibs, m)
  {
    var kids := ChildrenIds(t, sibs[0]).value;
    if ChildMessage(t, siblings, kids, m) {
      var j :| 0 <= j < |kids| && MarriedInto(t, kids[j], siblings) && m == MarriedToAuntOrUncle(Show(t.inds[kids[j]].name));
      ChildrenIdsMembers(t, sibs[0], kids[j]);
      assert NephewMarriedIn(t, siblings, sibs, sibs[0], kids[j]);
    }
  }

  /** A message for a child of one of `sibs[1..]` is one for a child of one
      of `sibs`. */
  lemma NephewOfRest(t: Tables, siblings: set<string>, sibs: seq<string>, m: Message)
    requires sibs != []
    ensures NephewMessage(t, siblings, sibs[1..], m) ==> NephewMessage(t, siblings, sibs, m)
  {
    if NephewMessage(t, siblings, sibs[1..], m) {
      var b, k :| NephewMarriedIn(t, siblings, sibs[1..], b, k) && m == MarriedToAuntOrUncle(Show(t.inds[k].name));
      assert NephewMarriedIn(t, siblings, sibs, b, k);
    }
  }

  /** A message for a child of one of `sibs` is one for a child of the first
      sibling or one for a child of the others. */
  lemma NephewCases(t: Tables, siblings: set<string>, sibs: seq<string>, m: Message)
    requires sibs != [] && ChildrenIds(t, sibs[0]).Ok?
    ensures NephewMessage(t, siblings, sibs, m) ==>
      ChildMessage(t, siblings, ChildrenIds(t, sibs[0]).value, m) || NephewMessage(t, siblings, sibs[1..], m)
  {
    var a := sibs[0];
    var kids := ChildrenIds(t, a).value;
    if NephewMessage(t, siblings, sibs, m) {
      var b, k :| NephewMarriedIn(t, siblings, sibs, b, k) && m == MarriedToAuntOrUncle(Show(t.inds[k].name));
      if b == a {
        ChildrenIdsMembers(t, a, k);
        var j :| 0 <= j < |kids| && kids[j] == k;
        assert MarriedInto(t, kids[j], siblings) && m == MarriedToAuntOrUncle(Show(t.inds[kids[j]].name));
      } else {
        assert NephewMarriedIn(t, siblings, sibs[1..], b, k);
      }
    }
  }

  /** One step of the US20 scan over siblings. */
  lemma NephewStep(t: Tables, siblings: set<string>, sibs: seq<string>, acc: seq<Message>, first: seq<Message>, all: seq<Message>)
    requires sibs != [] && ChildrenIds(t, sibs[0]).Ok? && acc <= first <= all
    requires forall m :: m in first[|acc|..] <==> ChildMessage(t, siblings, ChildrenIds(t, sibs[0]).value, m)
    requires forall m :: m in all[|first|..] <==> NephewMessage(t, siblings, sibs[1..], m)
    ensures forall m :: m in all[|acc|..] <==> NephewMessage(t, siblings, sibs, m)
  {
    RuleScans.AddedSplit(acc, first, all);
    forall m
      ensures m in all[|acc|..] <==> NephewMessage(t, siblings, sibs, m)
    {
      NephewOfFirst(t, siblings, sibs, m);
      NephewOfRest(t, siblings, sibs, m);
      NephewCases(t, siblings, sibs, m);
    }
  }

  /** US20 for the siblings `sibs`: each child of a sibling whose current
      spouse is one of `siblings` is reported, and nothing else. */
  lemma {:induction false} AuntsAndUnclesAdded(t: Tables, siblings: set<string>, sibs: seq<string>, acc: seq<Message>)
    ensures var r := AuntsAndUncles(t, siblings, sibs, acc);
      r.Ok? ==> forall m :: m in r.value[|acc|..] <==> NephewMessage(t, siblings, sibs, m)
    decreases |sibs|
  {
    var r := AuntsAndUncles(t, siblings, sibs, acc);
    if sibs != [] && ChildrenIds(t, sibs[0]).Ok? && r.Ok? {
      var kids := ChildrenIds(t, sibs[0]).value;
      var first := MarriedIntoSiblings(t, siblings, kids, acc);
      assert first.Ok?;
      assert r == AuntsAndUncles(t, siblings, sibs[1..], first.value);
      MarriedIntoSiblingsAdded(t, siblings, kids, acc);
      AuntsAndUnclesAdded(t, siblings, sibs[1..], first.value);
      NephewStep(t, siblings, sibs, acc, first.value, r.value);
    }
  }
}

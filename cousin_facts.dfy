/** Which couples US19 records: a child of a family and an individual on
    either parent's side whose current spouse the child is. The couples are
    what the check's messages are made from (`RuleFacts.Reported`); here they
    are tied to the family relation in both directions. */
module CousinFacts {
  import opened Wrappers
  import opened Strings
  import opened Messages
  import opened Records
  import opened Rules
  import KinFacts

  /** `get_spouse(c)` answers `k`. */
  ghost predicate MarriedTo(t: Tables, c: string, k: string)
  {
    c in t.inds && KinFacts.CurrentSpouse(t, c) == Ok(Some(k))
  }

  /** The couple of `c` and `k` is on record, in one order or the other. */
  predicate Covered(couples: seq<(string, string)>, c: string, k: string)
  {
    (c, k) in couples || (k, c) in couples
  }

  /** `c` is a child of one of `aunts`. */
  ghost predicate ChildOfAny(t: Tables, aunts: set<string>, c: string)
  {
    exists a :: a in aunts && KinFacts.ChildOf(t, c, a)
  }

  /** `c` is a child of one of `aunts`, listed. */
  ghost predicate ChildOfListed(t: Tables, aunts: seq<string>, c: string)
  {
    exists a :: a in aunts && KinFacts.ChildOf(t, c, a)
  }

  /** `c` is a child of a child of the family `parent` grew up in: a first
      cousin through `parent`, or, since `parent` is a child of that family
      too, a child of `parent`. */
  ghost predicate CousinOnSide(t: Tables, parent: Option<string>, c: string)
  {
    parent.Some? && parent.value in t.inds && t.inds[parent.value].famc.Some?
    && t.inds[parent.value].famc.value in t.fams
    && ChildOfAny(t, t.fams[t.inds[parent.value].famc.value].chil, c)
  }

  /** `c` is a cousin, in the sense above, of the children of `f`, on the
      mother's or the father's side. */
  ghost predicate Cousins(t: Tables, f: FamRec, c: string)
  {
    CousinOnSide(t, f.wife, c) || CousinOnSide(t, f.husb, c)
  }

  // ---------------------------------------------------------------------------
  // One level of the nested loops at a time. Each lemma states that the
  // couples only grow, that every couple added pairs a cousin with a child,
  // and that every cousin married to a child ends up among the couples.
  // ---------------------------------------------------------------------------

  lemma {:induction false} CousinListCouples(t: Tables, curr: string, cousins: seq<string>, st: CousinState)
    ensures var r := CousinList(t, curr, cousins, st);
      r.Ok? ==>
        st.couples <= r.value.couples
        && (forall j :: |st.couples| <= j < |r.value.couples| ==>
              r.value.couples[j].1 == curr && r.value.couples[j].0 in cousins)
        && (forall c :: c in cousins && MarriedTo(t, c, curr) ==> Covered(r.value.couples, c, curr))
    decreases |cousins|
  {
    var r := CousinList(t, curr, cousins, st);
    if cousins != [] && r.Ok? {
      var cousin := cousins[0];
      var other := t.inds[cousin];
      var spouse := SpouseIn(t, other, Sorted(other.fams));
      var st1 := if spouse.value == Some(curr) && (curr, cousin) !in st.couples
        then CousinState(st.msgs + [MarriedToCousin(Show(t.inds[curr].name), Show(other.name))], st.couples + [(cousin, curr)])
        else st;
      assert r == CousinList(t, curr, cousins[1..], st1);
      CousinListCouples(t, curr, cousins[1..], st1);
      assert st.couples <= st1.couples;
      forall j | |st.couples| <= j < |r.value.couples|
        ensures r.value.couples[j].1 == curr && r.value.couples[j].0 in cousins
      {
        if j >= |st1.couples| {
          assert r.value.couples[j].0 in cousins[1..];
        }
      }
      forall c | c in cousins && MarriedTo(t, c, curr)
        ensures Covered(r.value.couples, c, curr)
      {
        if c == cousin {
          assert (curr, cousin) in st.couples || (cousin, curr) in st1.couples;
        } else {
          assert c in cousins[1..];
        }
      }
    }
  }

  lemma {:induction false} CousinAuntsAdded(t: Tables, curr: string, aunts: seq<string>, st: CousinState)
    ensures var r := CousinAunts(t, curr, aunts, st);
      r.Ok? ==>
        st.couples <= r.value.couples
        && forall j :: |st.couples| <= j < |r.value.couples| ==>
             r.value.couples[j].1 == curr && ChildOfListed(t, aunts, r.value.couples[j].0)
    decreases |aunts|
  {
    var r := CousinAunts(t, curr, aunts, st);
    if aunts != [] && r.Ok? {
      var cousins := ChildrenIds(t, aunts[0]).value;
      var st1 := CousinList(t, curr, cousins, st).value;
      assert r == CousinAunts(t, curr, aunts[1..], st1);
      CousinListCouples(t, curr, cousins, st);
      CousinAuntsAdded(t, curr, aunts[1..], st1);
      forall j | |st.couples| <= j < |r.value.couples|
        ensures r.value.couples[j].1 == curr && ChildOfListed(t, aunts, r.value.couples[j].0)
      {
        var c := r.value.couples[j].0;
        var a: string;
        if j < |st1.couples| {
          assert r.value.couples[j] == st1.couples[j];
          KinFacts.ChildrenIdsMembers(t, aunts[0], c);
          a := aunts[0];
        } else {
          assert ChildOfListed(t, aunts[1..], c);
          a :| a in aunts[1..] && KinFacts.ChildOf(t, c, a);
        }
        assert a in aunts && KinFacts.ChildOf(t, c, a);
      }
    }
  }

  lemma {:induction false} CousinAuntsCovers(t: Tables, curr: string, aunts: seq<string>, st: CousinState)
    ensures var r := CousinAunts(t, curr, aunts, st);
      r.Ok? ==>
        st.couples <= r.value.couples
        && forall a, c :: a in aunts && KinFacts.ChildOf(t, c, a) && MarriedTo(t, c, curr) ==>
             Covered(r.value.couples, c, curr)
    decreases |aunts|
  {
    var r := CousinAunts(t, curr, aunts, st);
    if aunts != [] && r.Ok? {
      var cousins := ChildrenIds(t, aunts[0]).value;
      var st1 := CousinList(t, curr, cousins, st).value;
      assert r == CousinAunts(t, curr, aunts[1..], st1);
      CousinListCouples(t, curr, cousins, st);
      CousinAuntsCovers(t, curr, aunts[1..], st1);
      forall a, c | a in aunts && KinFacts.ChildOf(t, c, a) && MarriedTo(t, c, curr)
        ensures Covered(r.value.couples, c, curr)
      {
        if a == aunts[0] {
          KinFacts.ChildrenIdsMembers(t, aunts[0], c);
          assert Covered(st1.couples, c, curr);
        } else {
          assert a in aunts[1..];
        }
      }
    }
  }

  lemma CousinSideCouples(t: Tables, parent: Option<string>, curr: string, st: CousinState)
    ensures var r := CousinSide(t, parent, curr, st);
      r.Ok? ==>
        st.couples <= r.value.couples
        && (forall j :: |st.couples| <= j < |r.value.couples| ==>
              r.value.couples[j].1 == curr && CousinOnSide(t, parent, r.value.couples[j].0))
        && (forall c :: CousinOnSide(t, parent, c) && MarriedTo(t, c, curr) ==> Covered(r.value.couples, c, curr))
  {
    var r := CousinSide(t, parent, curr, st);
    if r.Ok? && t.inds[parent.value].famc.Some? {
      var home := t.fams[t.inds[parent.value].famc.value];
      CousinAuntsAdded(t, curr, Sorted(home.chil), st);
      CousinAuntsCovers(t, curr, Sorted(home.chil), st);
      SortedMembers(home.chil);
    }
  }

  lemma {:induction false} CousinChildrenCouples(t: Tables, f: FamRec, kids: seq<string>, st: CousinState)
    ensures var r := CousinChildren(t, f, kids, st);
      r.Ok? ==>
        st.couples <= r.value.couples
        && (forall j :: |st.couples| <= j < |r.value.couples| ==>
              r.value.couples[j].1 in kids && Cousins(t, f, r.value.couples[j].0))
        && (forall k, c :: k in kids && Cousins(t, f, c) && MarriedTo(t, c, k) ==> Covered(r.value.couples, c, k))
    decreases |kids|
  {
    var r := CousinChildren(t, f, kids, st);
    if kids != [] && r.Ok? {
      var st1 := CousinSide(t, f.wife, kids[0], st).value;
      var st2 := CousinSide(t, f.husb, kids[0], st1).value;
      CousinSideCouples(t, f.wife, kids[0], st);
      CousinSideCouples(t, f.husb, kids[0], st1);
      CousinChildrenCouples(t, f, kids[1..], st2);
      forall j | |st.couples| <= j < |r.value.couples|
        ensures r.value.couples[j].1 in kids && Cousins(t, f, r.value.couples[j].0)
      {
        if j < |st1.couples| {
          assert r.value.couples[j] == st1.couples[j];
        } else if j < |st2.couples| {
          assert r.value.couples[j] == st2.couples[j];
        } else {
          assert r.value.couples[j].1 in kids[1..];
        }
      }
      forall k, c | k in kids && Cousins(t, f, c) && MarriedTo(t, c, k)
        ensures Covered(r.value.couples, c, k)
      {
        if k == kids[0] {
          assert Covered(st2.couples, c, k);
        } else {
          assert k in kids[1..];
        }
      }
    }
  }

  lemma {:induction false} NoMarriageToCousinAdded(t: Tables, xs: seq<(string, FamRec)>, st: CousinState)
    ensures var r := NoMarriageToCousin(t, xs, st);
      r.Ok? ==>
        st.couples <= r.value.couples
        && forall j :: |st.couples| <= j < |r.value.couples| ==>
             exists i :: 0 <= i < |xs| && r.value.couples[j].1 in xs[i].1.chil && Cousins(t, xs[i].1, r.value.couples[j].0)
    decreases |xs|
  {
    var r := NoMarriageToCousin(t, xs, st);
    if xs != [] && r.Ok? {
      var f := xs[0].1;
      var st1 := CousinChildren(t, f, Sorted(f.chil), st).value;
      assert r == NoMarriageToCousin(t, xs[1..], st1);
      CousinChildrenCouples(t, f, Sorted(f.chil), st);
      NoMarriageToCousinAdded(t, xs[1..], st1);
      forall j | |st.couples| <= j < |r.value.couples|
        ensures exists i :: 0 <= i < |xs| && r.value.couples[j].1 in xs[i].1.chil && Cousins(t, xs[i].1, r.value.couples[j].0)
      {
        if j < |st1.couples| {
          assert r.value.couples[j] == st1.couples[j];
          SortedMembers(f.chil);
          assert r.value.couples[j].1 in xs[0].1.chil;
        } else {
          var i :| 0 <= i < |xs[1..]| && r.value.couples[j].1 in xs[1..][i].1.chil && Cousins(t, xs[1..][i].1, r.value.couples[j].0);
          assert xs[1..][i] == xs[i + 1];
        }
      }
    }
  }

  lemma {:induction false} NoMarriageToCousinCovers(t: Tables, xs: seq<(string, FamRec)>, st: CousinState)
    ensures var r := NoMarriageToCousin(t, xs, st);
      r.Ok? ==>
        st.couples <= r.value.couples
        && forall i, k, c :: 0 <= i < |xs| && k in xs[i].1.chil && Cousins(t, xs[i].1, c) && MarriedTo(t, c, k) ==>
             Covered(r.value.couples, c, k)
    decreases |xs|
  {
    var r := NoMarriageToCousin(t, xs, st);
    if xs != [] && r.Ok? {
      var f := xs[0].1;
      var st1 := CousinChildren(t, f, Sorted(f.chil), st).value;
      assert r == NoMarriageToCousin(t, xs[1..], st1);
      CousinChildrenCouples(t, f, Sorted(f.chil), st);
      NoMarriageToCousinCovers(t, xs[1..], st1);
      forall i, k, c | 0 <= i < |xs| && k in xs[i].1.chil && Cousins(t, xs[i].1, c) && MarriedTo(t, c, k)
        ensures Covered(r.value.couples, c, k)
      {
        if i == 0 {
          SortedMembers(f.chil);
          assert Covered(st1.couples, c, k);
        } else {
          assert xs[1..][i - 1] == xs[i];
        }
      }
    }
  }

  /** Every key of `m` that `order` lists has its entry in `Listed(m, order)`. */
  lemma {:induction false} ListedCovers<V>(m: map<string, V>, order: seq<string>, key: string)
    requires key in m && key in order
    ensures exists i :: 0 <= i < |Listed(m, order)| && Listed(m, order)[i].0 == key
    decreases |order|
  {
    var r := Listed(m, order);
    var head: seq<(string, V)> := if order[0] in m then [(order[0], m[order[0]])] else [];
    assert r == head + Listed(m, order[1..]);
    if order[0] == key {
      assert r[0].0 == key;
    } else {
      ListedCovers(m, order[1..], key);
      var i :| 0 <= i < |Listed(m, order[1..])| && Listed(m, order[1..])[i].0 == key;
      assert r[|head| + i].0 == key;
    }
  }

  /** US19 over the whole family table: every couple it records is a child
      of some family and a cousin of that family's children (in the sense of
      `Cousins`) whose current spouse the child is; and, when each family id
      is listed once, every such pair is recorded, in one order or the
      other. With `RuleFacts.CousinMessagesMeaning`, one message stands
      behind each couple. */
  lemma CousinCouples(t: Tables, acc: seq<Message>)
    ensures var r := NoMarriageToCousin(t, Households(t), CousinState(acc, []));
      r.Ok? ==>
        forall j :: 0 <= j < |r.value.couples| ==>
          exists fid :: fid in t.fams && r.value.couples[j].1 in t.fams[fid].chil
                        && Cousins(t, t.fams[fid], r.value.couples[j].0)
    ensures var r := NoMarriageToCousin(t, Households(t), CousinState(acc, []));
      r.Ok? && t.Valid() ==>
        forall fid, k, c :: fid in t.fams && k in t.fams[fid].chil && Cousins(t, t.fams[fid], c) && MarriedTo(t, c, k) ==>
          Covered(r.value.couples, c, k)
  {
    var xs := Households(t);
    var r := NoMarriageToCousin(t, xs, CousinState(acc, []));
    NoMarriageToCousinAdded(t, xs, CousinState(acc, []));
    NoMarriageToCousinCovers(t, xs, CousinState(acc, []));
    if r.Ok? {
      forall j | 0 <= j < |r.value.couples|
        ensures exists fid :: fid in t.fams && r.value.couples[j].1 in t.fams[fid].chil
                              && Cousins(t, t.fams[fid], r.value.couples[j].0)
      {
        var i :| 0 <= i < |xs| && r.value.couples[j].1 in xs[i].1.chil && Cousins(t, xs[i].1, r.value.couples[j].0);
        assert xs[i].0 in t.fams && t.fams[xs[i].0] == xs[i].1;
      }
      if t.Valid() {
        forall fid, k, c | fid in t.fams && k in t.fams[fid].chil && Cousins(t, t.fams[fid], c) && MarriedTo(t, c, k)
          ensures Covered(r.value.couples, c, k)
        {
          ListedCovers(t.fams, t.famOrder, fid);
          var i :| 0 <= i < |xs| && xs[i].0 == fid;
          assert xs[i].1 == t.fams[fid];
        }
      }
    }
  }

  // ---------------------------------------------------------------------------
  // When US19 raises
  // ---------------------------------------------------------------------------

  /** `get_spouse` looks up only the families it is given, so it completes
      when they are all keys. */
  lemma {:induction false} SpouseInKnown(t: Tables, p: IndiRec, fams: seq<string>)
    requires forall j :: 0 <= j < |fams| ==> fams[j] in t.fams
    ensures SpouseIn(t, p, fams).Ok?
    decreases |fams|
  {
    if fams != [] && t.fams[fams[0]].div.Some? {
      assert forall j :: 0 <= j < |fams[1..]| ==> fams[1..][j] == fams[j + 1];
      SpouseInKnown(t, p, fams[1..]);
    }
  }

  /** The loop over the cousins `cousins` of `curr` raises only `KeyError`,
      and completes on linked tables when `curr` and the cousins are
      individuals. */
  lemma {:induction false} CousinListRaises(t: Tables, curr: string, cousins: seq<string>, st: CousinState)
    ensures var r := CousinList(t, curr, cousins, st);
      r.Err? ==> r.error == KeyError
    ensures Linked(t) && curr in t.inds && (forall j :: 0 <= j < |cousins| ==> cousins[j] in t.inds) ==>
      CousinList(t, curr, cousins, st).Ok?
    decreases |cousins|
  {
    if cousins != [] {
      var cousin := cousins[0];
      if Linked(t) && cousin in t.inds {
        SortedMembers(t.inds[cousin].fams);
        SpouseInKnown(t, t.inds[cousin], Sorted(t.inds[cousin].fams));
      }
      assert forall j :: 0 <= j < |cousins[1..]| ==> cousins[1..][j] == cousins[j + 1];
      forall st1: CousinState
        ensures var r := CousinList(t, curr, cousins[1..], st1);
          r.Err? ==> r.error == KeyError
        ensures Linked(t) && curr in t.inds && (forall j :: 0 <= j < |cousins[1..]| ==> cousins[1..][j] in t.inds) ==>
          CousinList(t, curr, cousins[1..], st1).Ok?
      {
        CousinListRaises(t, curr, cousins[1..], st1);
      }
    }
  }

  /** The loop over the parent's siblings `aunts`: the same, when the
      siblings are individuals. */
  lemma {:induction false} CousinAuntsRaises(t: Tables, curr: string, aunts: seq<string>, st: CousinState)
    ensures var r := CousinAunts(t, curr, aunts, st);
      r.Err? ==> r.error == KeyError
    ensures Linked(t) && curr in t.inds && (forall j :: 0 <= j < |aunts| ==> aunts[j] in t.inds) ==>
      CousinAunts(t, curr, aunts, st).Ok?
    decreases |aunts|
  {
    if aunts != [] {
      var cousins := ChildrenIds(t, aunts[0]);
      if Linked(t) && aunts[0] in t.inds {
        SortedMembers(t.inds[aunts[0]].fams);
        assert cousins.Ok?;
        forall k | k in cousins.value
          ensures k in t.inds
        {
          KinFacts.ChildrenIdsMembers(t, aunts[0], k);
        }
      }
      if cousins.Ok? {
        CousinListRaises(t, curr, cousins.value, st);
        var st1 := CousinList(t, curr, cousins.value, st);
        if st1.Ok? {
          assert forall j :: 0 <= j < |aunts[1..]| ==> aunts[1..][j] == aunts[j + 1];
          CousinAuntsRaises(t, curr, aunts[1..], st1.value);
        }
      }
    }
  }

  /** One parent's side: the same, when the parent is an individual. */
  lemma CousinSideRaises(t: Tables, parent: Option<string>, curr: string, st: CousinState)
    ensures var r := CousinSide(t, parent, curr, st);
      r.Err? ==> r.error == KeyError
    ensures Linked(t) && parent.Some? && parent.value in t.inds && curr in t.inds ==>
      CousinSide(t, parent, curr, st).Ok?
  {
    if parent.Some? && parent.value in t.inds {
      var p := t.inds[parent.value];
      if p.famc.Some? && p.famc.value in t.fams {
        var home := t.fams[p.famc.value];
        SortedMembers(home.chil);
        CousinAuntsRaises(t, curr, Sorted(home.chil), st);
      }
    }
  }

  /** The children `kids` of the family `f`: the same, when both spouses
      and the children are individuals. */
  lemma {:induction false} CousinChildrenRaises(t: Tables, f: FamRec, kids: seq<string>, st: CousinState)
    ensures var r := CousinChildren(t, f, kids, st);
      r.Err? ==> r.error == KeyError
    ensures (Linked(t) && f.husb.Some? && f.husb.value in t.inds && f.wife.Some? && f.wife.value in t.inds
             && forall j :: 0 <= j < |kids| ==> kids[j] in t.inds) ==>
      CousinChildren(t, f, kids, st).Ok?
    decreases |kids|
  {
    if kids != [] {
      CousinSideRaises(t, f.wife, kids[0], st);
      var st1 := CousinSide(t, f.wife, kids[0], st);
      if st1.Ok? {
        CousinSideRaises(t, f.husb, kids[0], st1.value);
        var st2 := CousinSide(t, f.husb, kids[0], st1.value);
        if st2.Ok? {
          assert forall j :: 0 <= j < |kids[1..]| ==> kids[1..][j] == kids[j + 1];
          CousinChildrenRaises(t, f, kids[1..], st2.value);
        }
      }
    }
  }

  /** The families `xs`, each listed with its own record: the same. */
  lemma {:induction false} NoMarriageToCousinRaises(t: Tables, xs: seq<(string, FamRec)>, st: CousinState)
    ensures var r := NoMarriageToCousin(t, xs, st);
      r.Err? ==> r.error == KeyError
    ensures Linked(t) && (forall j :: 0 <= j < |xs| ==> xs[j].0 in t.fams && xs[j].1 == t.fams[xs[j].0]) ==>
      NoMarriageToCousin(t, xs, st).Ok?
    decreases |xs|
  {
    if xs != [] {
      SortedMembers(xs[0].1.chil);
      CousinChildrenRaises(t, xs[0].1, Sorted(xs[0].1.chil), st);
      var st1 := CousinChildren(t, xs[0].1, Sorted(xs[0].1.chil), st);
      if st1.Ok? {
        assert forall j :: 0 <= j < |xs[1..]| ==> xs[1..][j] == xs[j + 1];
        NoMarriageToCousinRaises(t, xs[1..], st1.value);
      }
    }
  }

  /** `no_marriage_to_cousin` raises only `KeyError`, and only when some
      record refers to an id that is not a key or a family lacks a spouse:
      on linked tables it always completes. */
  lemma US19Raises(t: Tables, acc: seq<Message>)
    ensures US19(t, acc).Err? ==> US19(t, acc).error == KeyError
    ensures Linked(t) ==> US19(t, acc).Ok?
  {
    NoMarriageToCousinRaises(t, Households(t), CousinState(acc, []));
  }
}

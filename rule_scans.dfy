/** The checks of `Rules` that scan a list — a person's families, a
    family's children, all families — and what each reports: exactly the
    entries of the list that meet the user story's condition. */
module RuleScans {
  import opened Wrappers
  import opened Strings
  import opened Dates
  import opened Messages
  import opened Records
  import opened Rules

  lemma AppendAssoc<M>(a: seq<M>, b: seq<M>, c: seq<M>)
    ensures a + b + c == a + (b + c)
  {
  }

  lemma AppendEmpty<M>(a: seq<M>)
    ensures [] + a == a && a + [] == a
  {
  }

  /** What a scan added to `acc` is what its first part added and then what
      the rest added. */
  lemma AddedSplit(acc: seq<Message>, mid: seq<Message>, all: seq<Message>)
    requires acc <= mid <= all
    ensures all[|acc|..] == mid[|acc|..] + all[|mid|..]
  {
  }

  // ---------------------------------------------------------------------------
  // US10
  // ---------------------------------------------------------------------------

  /** The years from the birth of `p` to the marriage of family `fams[j]`. */
  function YearsAt(t: Tables, p: IndiRec, fams: seq<string>, j: int): int
    requires Dated(t, p, fams, j)
  {
    t.fams[fams[j]].marr.value.year - p.birt.value.year
  }

  /** Family `fams[j]` exists and has a marriage date, and `p` a birth date. */
  predicate Dated(t: Tables, p: IndiRec, fams: seq<string>, j: int)
  {
    0 <= j < |fams| && fams[j] in t.fams && t.fams[fams[j]].marr.Some? && p.birt.Some?
  }

  /** Every family of `fams` is `Dated`. */
  predicate AllDated(t: Tables, p: IndiRec, fams: seq<string>)
  {
    forall j :: 0 <= j < |fams| ==> Dated(t, p, fams, j)
  }

  lemma DatedShift(t: Tables, p: IndiRec, fams: seq<string>)
    requires fams != []
    ensures forall j :: 1 <= j < |fams| ==> (Dated(t, p, fams, j) <==> Dated(t, p, fams[1..], j - 1))
    ensures forall j :: 1 <= j < |fams| && Dated(t, p, fams, j) ==> YearsAt(t, p, fams, j) == YearsAt(t, p, fams[1..], j - 1)
    ensures AllDated(t, p, fams) <==> Dated(t, p, fams, 0) && AllDated(t, p, fams[1..])
  {
    assert forall j :: 1 <= j < |fams| ==> fams[j] == fams[1..][j - 1];
    if Dated(t, p, fams, 0) && AllDated(t, p, fams[1..]) {
      forall j | 1 <= j < |fams| ensures Dated(t, p, fams, j) {
        assert Dated(t, p, fams[1..], j - 1);
      }
    }
    if AllDated(t, p, fams) {
      forall j | 0 <= j < |fams| - 1 ensures Dated(t, p, fams[1..], j) {
        assert Dated(t, p, fams, j + 1);
      }
    }
  }

  /** `p` married in family `fams[j]` at most fourteen years after the year
      of birth. */
  predicate MarriedYoungAt(t: Tables, p: IndiRec, fams: seq<string>, j: int)
  {
    Dated(t, p, fams, j) && YearsAt(t, p, fams, j) <= 14
  }

  /** US10 for one individual: it raises unless every family exists and has
      a marriage date and the individual a birth date; otherwise it reports
      each family married in at most fourteen years after the birth year,
      with that number of years, and nothing else. */
  lemma {:induction false} SpousesTooYoungIff(t: Tables, p: IndiRec, fams: seq<string>, acc: seq<Message>)
    ensures SpousesTooYoung(t, p, fams, acc).Ok? <==> AllDated(t, p, fams)
    ensures var r := SpousesTooYoung(t, p, fams, acc);
      r.Err? ==> r.error == KeyError || r.error == AttributeError
    ensures var r := SpousesTooYoung(t, p, fams, acc);
      r.Ok? ==> forall m :: m in r.value[|acc|..] <==>
        exists j :: MarriedYoungAt(t, p, fams, j) && m == MarriedTooYoung(Show(p.name), YearsAt(t, p, fams, j))
    decreases |fams|
  {
    if fams != [] && Dated(t, p, fams, 0) {
      var n := Show(p.name);
      var years := YearsAt(t, p, fams, 0);
      var acc1 := if years <= 14 then acc + [MarriedTooYoung(n, years)] else acc;
      var r := SpousesTooYoung(t, p, fams, acc);
      SpousesTooYoungIff(t, p, fams[1..], acc1);
      assert r == SpousesTooYoung(t, p, fams[1..], acc1);
      DatedShift(t, p, fams);
      if r.Ok? {
        AddedSplit(acc, acc1, r.value);
        forall m
          ensures m in r.value[|acc|..] <==>
            exists j :: MarriedYoungAt(t, p, fams, j) && m == MarriedTooYoung(n, YearsAt(t, p, fams, j))
        {
          if m in r.value[|acc|..] {
            if m in acc1[|acc|..] {
              assert MarriedYoungAt(t, p, fams, 0) && m == MarriedTooYoung(n, YearsAt(t, p, fams, 0));
            } else {
              var j :| MarriedYoungAt(t, p, fams[1..], j) && m == MarriedTooYoung(n, YearsAt(t, p, fams[1..], j));
              assert MarriedYoungAt(t, p, fams, j + 1);
            }
          }
          if exists j :: MarriedYoungAt(t, p, fams, j) && m == MarriedTooYoung(n, YearsAt(t, p, fams, j)) {
            var j :| MarriedYoungAt(t, p, fams, j) && m == MarriedTooYoung(n, YearsAt(t, p, fams, j));
            if j == 0 {
              assert acc1[|acc|..] == [m];
            } else {
              assert MarriedYoungAt(t, p, fams[1..], j - 1);
            }
          }
        }
      }
    } else if fams != [] {
      assert !Dated(t, p, fams, 0);
      DatedShift(t, p, fams);
    }
  }

  // ---------------------------------------------------------------------------
  // US13
  // ---------------------------------------------------------------------------

  /** `k` is an individual with a birth date. */
  predicate Born(t: Tables, k: string)
  {
    k in t.inds && t.inds[k].birt.Some?
  }

  /** The days between the births of `a` and `b`. */
  function DaysApart(t: Tables, a: string, b: string): nat
    requires Born(t, a) && Born(t, b)
  {
    Abs(DaysBetween(t.inds[a].birt.value, t.inds[b].birt.value))
  }

  /** Born more than two days but less than eight calendar months apart. */
  predicate TooClose(t: Tables, a: string, b: string)
    requires Born(t, a) && Born(t, b)
  {
    DaysApart(t, a, b) > 2 && Abs(MonthsBetween(t.inds[a].birt.value, t.inds[b].birt.value)) < 8
  }

  function PairMessage(t: Tables, a: string, b: string): Message
    requires Born(t, a) && Born(t, b)
  {
    SiblingsTooClose(Show(t.inds[a].name), Show(t.inds[b].name), DaysApart(t, a, b))
  }

  /** `kids[a]` and the later `kids[b]` are born too close together, and
      `m` says so. */
  predicate ClosePair(t: Tables, kids: seq<string>, a: int, b: int, m: Message)
  {
    0 <= a < b < |kids| && Born(t, kids[a]) && Born(t, kids[b])
    && TooClose(t, kids[a], kids[b]) && m == PairMessage(t, kids[a], kids[b])
  }

  /** Some child from `kids[j]` on is born too close after `kids[i]`, and
      `m` says so. */
  ghost predicate CloseFrom(t: Tables, kids: seq<string>, i: int, j: int, m: Message)
  {
    exists b :: j <= b && ClosePair(t, kids, i, b, m)
  }

  lemma CloseFromStep(t: Tables, kids: seq<string>, i: int, j: int, m: Message)
    requires 0 <= i < j < |kids|
    ensures CloseFrom(t, kids, i, j, m) <==> ClosePair(t, kids, i, j, m) || CloseFrom(t, kids, i, j + 1, m)
  {
    if CloseFrom(t, kids, i, j, m) {
      var b :| j <= b && ClosePair(t, kids, i, b, m);
      if b > j {
        assert CloseFrom(t, kids, i, j + 1, m);
      }
    }
  }

  /** The pair of `kids[i]` with `kids[j]`: it raises unless both are
      individuals with birth dates, and otherwise the scan goes on with
      `kids[j + 1]`, the pair's message added when they are too close. */
  lemma SpacingStep(t: Tables, kids: seq<string>, i: nat, j: nat, acc: seq<Message>)
    requires i < j < |kids|
    ensures Born(t, kids[i]) && Born(t, kids[j]) ==>
      SpacingWith(t, kids, i, j, acc)
        == SpacingWith(t, kids, i, j + 1, if TooClose(t, kids[i], kids[j]) then acc + [PairMessage(t, kids[i], kids[j])] else acc)
    ensures var r := SpacingWith(t, kids, i, j, acc);
      !(Born(t, kids[i]) && Born(t, kids[j])) ==> r.Err? && (r.error == KeyError || r.error == TypeError)
  {
    if Born(t, kids[i]) && Born(t, kids[j]) {
      var acc1 := if TooClose(t, kids[i], kids[j]) then acc + [PairMessage(t, kids[i], kids[j])] else acc;
      assert SpacedPair(t, kids[i], kids[j], acc) == Ok(acc1);
    }
  }

  /** Every child from `kids[j]` on is an individual with a birth date. */
  predicate BornFrom(t: Tables, kids: seq<string>, j: int)
  {
    forall b :: j <= b < |kids| ==> 0 <= b && Born(t, kids[b])
  }

  lemma BornFromStep(t: Tables, kids: seq<string>, j: nat)
    requires j < |kids|
    ensures BornFrom(t, kids, j) <==> Born(t, kids[j]) && BornFrom(t, kids, j + 1)
  {
  }

  /** US13 for `kids[i]` and the children from `kids[j]` on raises unless
      all of them are individuals with birth dates. */
  lemma {:induction false} SpacingWithRaises(t: Tables, kids: seq<string>, i: nat, j: nat, acc: seq<Message>)
    requires i < j
    requires i < |kids|
    ensures SpacingWith(t, kids, i, j, acc).Ok? <==> j >= |kids| || (Born(t, kids[i]) && BornFrom(t, kids, j))
    ensures var r := SpacingWith(t, kids, i, j, acc);
      r.Err? ==> r.error == KeyError || r.error == TypeError
    decreases |kids| - j
  {
    if j < |kids| {
      BornFromStep(t, kids, j);
      if Born(t, kids[i]) && Born(t, kids[j]) {
        var acc1 := if TooClose(t, kids[i], kids[j]) then acc + [PairMessage(t, kids[i], kids[j])] else acc;
        SpacingWithRaises(t, kids, i, j + 1, acc1);
      }
      SpacingStep(t, kids, i, j, acc);
    }
  }

  /** The messages for the pairs of `kids[i]` with `kids[j]` and each child
      after it, in order: a reference for what the scan adds. */
  function ClosePairs(t: Tables, kids: seq<string>, i: nat, j: nat): (r: seq<Message>)
    requires i < |kids| && Born(t, kids[i]) && BornFrom(t, kids, j)
    ensures |r| <= |kids| - j || (j >= |kids| && r == [])
    decreases |kids| - j
  {
    if j >= |kids| then []
    else (if TooClose(t, kids[i], kids[j]) then [PairMessage(t, kids[i], kids[j])] else []) + ClosePairs(t, kids, i, j + 1)
  }

  /** A message is among the pairs' messages exactly when it reports a pair
      of `kids[i]` with a child from `kids[j]` on born too close. */
  lemma {:induction false} ClosePairsMembers(t: Tables, kids: seq<string>, i: nat, j: nat, m: Message)
    requires i < j
    requires i < |kids| && Born(t, kids[i]) && BornFrom(t, kids, j)
    ensures m in ClosePairs(t, kids, i, j) <==> CloseFrom(t, kids, i, j, m)
    decreases |kids| - j
  {
    if j < |kids| {
      ClosePairsMembers(t, kids, i, j + 1, m);
      CloseFromStep(t, kids, i, j, m);
      var first := if TooClose(t, kids[i], kids[j]) then [PairMessage(t, kids[i], kids[j])] else [];
      assert m in first <==> ClosePair(t, kids, i, j, m);
    }
  }

  lemma ClosePairsStep(t: Tables, kids: seq<string>, i: nat, j: nat, acc: seq<Message>)
    requires i < |kids| && Born(t, kids[i]) && BornFrom(t, kids, j) && j < |kids|
    ensures BornFrom(t, kids, j + 1) && Born(t, kids[j])
    ensures (if TooClose(t, kids[i], kids[j]) then acc + [PairMessage(t, kids[i], kids[j])] else acc) + ClosePairs(t, kids, i, j + 1)
            == acc + ClosePairs(t, kids, i, j)
  {
    if TooClose(t, kids[i], kids[j]) {
      assert ClosePairs(t, kids, i, j) == [PairMessage(t, kids[i], kids[j])] + ClosePairs(t, kids, i, j + 1);
      AppendAssoc(acc, [PairMessage(t, kids[i], kids[j])], ClosePairs(t, kids, i, j + 1));
    } else {
      assert ClosePairs(t, kids, i, j) == [] + ClosePairs(t, kids, i, j + 1);
      AppendEmpty(ClosePairs(t, kids, i, j + 1));
    }
  }

  /** US13 for `kids[i]` and the children from `kids[j]` on, all of them
      born: it appends the pairs' messages in order. */
  lemma {:induction false} SpacingWithAdded(t: Tables, kids: seq<string>, i: nat, j: nat, acc: seq<Message>)
    requires i < j
    requires i < |kids| && Born(t, kids[i]) && BornFrom(t, kids, j)
    ensures SpacingWith(t, kids, i, j, acc) == Ok(acc + ClosePairs(t, kids, i, j))
    decreases |kids| - j
  {
    if j < |kids| {
      ClosePairsStep(t, kids, i, j, acc);
      var acc1 := if TooClose(t, kids[i], kids[j]) then acc + [PairMessage(t, kids[i], kids[j])] else acc;
      SpacingWithAdded(t, kids, i, j + 1, acc1);
      SpacingStep(t, kids, i, j, acc);
    } else {
      AppendEmpty(acc);
    }
  }

  /** US13 for `kids[i]` and the children from `kids[j]` on: it raises unless
      all of them are individuals with birth dates; otherwise it reports each
      pair born too close together, and nothing else. */
  lemma SpacingWithIff(t: Tables, kids: seq<string>, i: nat, j: nat, acc: seq<Message>)
    requires i < j
    requires i < |kids|
    ensures SpacingWith(t, kids, i, j, acc).Ok? <==>
              j >= |kids| || (Born(t, kids[i]) && forall b :: j <= b < |kids| ==> Born(t, kids[b]))
    ensures var r := SpacingWith(t, kids, i, j, acc);
      r.Err? ==> r.error == KeyError || r.error == TypeError
    ensures var r := SpacingWith(t, kids, i, j, acc);
      r.Ok? ==> forall m :: m in r.value[|acc|..] <==> exists b :: j <= b && ClosePair(t, kids, i, b, m)
  {
    var r := SpacingWith(t, kids, i, j, acc);
    SpacingWithRaises(t, kids, i, j, acc);
    if r.Ok? && j < |kids| {
      SpacingWithAdded(t, kids, i, j, acc);
      assert r.value[|acc|..] == ClosePairs(t, kids, i, j);
      forall m
        ensures m in r.value[|acc|..] <==> CloseFrom(t, kids, i, j, m)
      {
        ClosePairsMembers(t, kids, i, j, m);
      }
    }
  }

  /** Some pair of children from `kids[i]` on is born too close together,
      and `m` says so. */
  ghost predicate CloseAfter(t: Tables, kids: seq<string>, i: int, m: Message)
  {
    exists a, b :: i <= a && ClosePair(t, kids, a, b, m)
  }

  lemma CloseAfterStep(t: Tables, kids: seq<string>, i: int, m: Message)
    requires 0 <= i < |kids|
    ensures CloseAfter(t, kids, i, m) <==> CloseFrom(t, kids, i, i + 1, m) || CloseAfter(t, kids, i + 1, m)
  {
    if CloseAfter(t, kids, i, m) {
      var a, b :| i <= a && ClosePair(t, kids, a, b, m);
      if a == i {
        assert CloseFrom(t, kids, i, i + 1, m);
      } else {
        assert CloseAfter(t, kids, i + 1, m);
      }
    }
    if CloseFrom(t, kids, i, i + 1, m) {
      var b :| i + 1 <= b && ClosePair(t, kids, i, b, m);
      assert CloseAfter(t, kids, i, m);
    }
  }

  /** The messages for every pair of children from `kids[i]` on, pair by
      pair as the scan meets them: a reference for what it adds. */
  function AllClosePairs(t: Tables, kids: seq<string>, i: nat): (r: seq<Message>)
    requires BornFrom(t, kids, i)
    ensures i >= |kids| ==> r == []
    decreases |kids| - i
  {
    if i >= |kids| then []
    else ClosePairs(t, kids, i, i + 1) + AllClosePairs(t, kids, i + 1)
  }

  /** A message is among all the pairs' messages exactly when it reports a
      pair of children from `kids[i]` on born too close. */
  lemma {:induction false} AllClosePairsMembers(t: Tables, kids: seq<string>, i: nat, m: Message)
    requires BornFrom(t, kids, i)
    ensures m in AllClosePairs(t, kids, i) <==> CloseAfter(t, kids, i, m)
    decreases |kids| - i
  {
    if i < |kids| {
      BornFromStep(t, kids, i);
      CloseAfterStep(t, kids, i, m);
      ClosePairsMembers(t, kids, i, i + 1, m);
      AllClosePairsMembers(t, kids, i + 1, m);
    }
  }

  /** US13 for the children from `kids[i]` on raises unless there is at
      most one of them or all of them are individuals with birth dates. */
  lemma {:induction false} SpacingFromRaises(t: Tables, kids: seq<string>, i: nat, acc: seq<Message>)
    ensures SpacingFrom(t, kids, i, acc).Ok? <==> i + 1 >= |kids| || BornFrom(t, kids, i)
    ensures var r := SpacingFrom(t, kids, i, acc);
      r.Err? ==> r.error == KeyError || r.error == TypeError
    ensures i + 1 >= |kids| ==> SpacingFrom(t, kids, i, acc) == Ok(acc)
    decreases |kids| - i
  {
    if i < |kids| {
      var first := SpacingWith(t, kids, i, i + 1, acc);
      SpacingWithRaises(t, kids, i, i + 1, acc);
      BornFromStep(t, kids, i);
      SpacingFromStep(t, kids, i, acc);
      if first.Ok? {
        SpacingFromRaises(t, kids, i + 1, first.value);
      }
    }
  }

  /** The scan from `kids[i]` goes on from `kids[i + 1]` once the pairs of
      `kids[i]` do not raise. */
  lemma SpacingFromStep(t: Tables, kids: seq<string>, i: nat, acc: seq<Message>)
    requires i < |kids|
    ensures var first := SpacingWith(t, kids, i, i + 1, acc);
      first.Ok? ==> SpacingFrom(t, kids, i, acc) == SpacingFrom(t, kids, i + 1, first.value)
  {
  }

  lemma AllClosePairsStep(t: Tables, kids: seq<string>, i: nat, acc: seq<Message>)
    requires BornFrom(t, kids, i) && i < |kids|
    ensures Born(t, kids[i]) && BornFrom(t, kids, i + 1)
    ensures acc + ClosePairs(t, kids, i, i + 1) + AllClosePairs(t, kids, i + 1) == acc + AllClosePairs(t, kids, i)
  {
    AppendAssoc(acc, ClosePairs(t, kids, i, i + 1), AllClosePairs(t, kids, i + 1));
  }

  /** US13 for the children from `kids[i]` on, all of them born: it appends
      all the pairs' messages in order. */
  lemma {:induction false} SpacingFromAdded(t: Tables, kids: seq<string>, i: nat, acc: seq<Message>)
    requires BornFrom(t, kids, i)
    ensures SpacingFrom(t, kids, i, acc) == Ok(acc + AllClosePairs(t, kids, i))
    decreases |kids| - i
  {
    if i < |kids| {
      AllClosePairsStep(t, kids, i, acc);
      var pairs := ClosePairs(t, kids, i, i + 1);
      SpacingFromAdded(t, kids, i + 1, acc + pairs);
      SpacingWithAdded(t, kids, i, i + 1, acc);
      SpacingFromStep(t, kids, i, acc);
    } else {
      AppendEmpty(acc);
    }
  }

  /** US13 for the children from `kids[i]` on: it raises unless there is at
      most one of them or all of them are individuals with birth dates;
      otherwise it reports each pair born too close together, and nothing
      else. */
  lemma SpacingFromIff(t: Tables, kids: seq<string>, i: nat, acc: seq<Message>)
    ensures SpacingFrom(t, kids, i, acc).Ok? <==>
              i + 1 >= |kids| || forall b :: i <= b < |kids| ==> Born(t, kids[b])
    ensures var r := SpacingFrom(t, kids, i, acc);
      r.Err? ==> r.error == KeyError || r.error == TypeError
    ensures var r := SpacingFrom(t, kids, i, acc);
      r.Ok? ==> forall m :: m in r.value[|acc|..] <==> exists a, b :: i <= a && ClosePair(t, kids, a, b, m)
  {
    var r := SpacingFrom(t, kids, i, acc);
    SpacingFromRaises(t, kids, i, acc);
    if r.Ok? && BornFrom(t, kids, i) {
      SpacingFromAdded(t, kids, i, acc);
      assert r.value[|acc|..] == AllClosePairs(t, kids, i);
      forall m
        ensures m in r.value[|acc|..] <==> CloseAfter(t, kids, i, m)
      {
        AllClosePairsMembers(t, kids, i, m);
      }
    } else if r.Ok? {
      assert r.value[|acc|..] == [];
    }
  }

  // ---------------------------------------------------------------------------
  // US11
  // ---------------------------------------------------------------------------

  /** The marriage and divorce of the family before `fams[j]`: `prev` for
      the first. */
  function PrevAt(t: Tables, fams: seq<string>, prev: Option<(Option<Date>, Option<Date>)>, j: int): Option<(Option<Date>, Option<Date>)>
    requires 0 <= j < |fams|
  {
    if j == 0 then prev
    else if fams[j - 1] in t.fams then Some((t.fams[fams[j - 1]].marr, t.fams[fams[j - 1]].div))
    else None
  }

  /** The dates US11 compares at family `fams[j]` are there: the family
      exists, and when the family before it has a divorce, both marriages
      have dates. */
  predicate ScanDated(t: Tables, fams: seq<string>, prev: Option<(Option<Date>, Option<Date>)>, j: int)
  {
    0 <= j < |fams| && fams[j] in t.fams
    && var before := PrevAt(t, fams, prev, j);
       (before.Some? && before.value.1.Some? ==> t.fams[fams[j]].marr.Some? && before.value.0.Some?)
  }

  /** Family `fams[j]` overlaps the family before it: that one has no
      divorce, or this marriage is strictly after that marriage and strictly
      before that divorce. */
  predicate Overlaps(t: Tables, fams: seq<string>, prev: Option<(Option<Date>, Option<Date>)>, j: int)
  {
    ScanDated(t, fams, prev, j) && PrevAt(t, fams, prev, j).Some?
    && var before := PrevAt(t, fams, prev, j).value;
       (before.1.None?
        || (Before(before.0.value, t.fams[fams[j]].marr.value) && Before(t.fams[fams[j]].marr.value, before.1.value)))
  }

  lemma ScanShift(t: Tables, fams: seq<string>, prev: Option<(Option<Date>, Option<Date>)>)
    requires fams != [] && fams[0] in t.fams
    ensures var next := Some((t.fams[fams[0]].marr, t.fams[fams[0]].div));
      forall j :: 1 <= j < |fams| ==>
        PrevAt(t, fams, prev, j) == PrevAt(t, fams[1..], next, j - 1)
        && (ScanDated(t, fams, prev, j) <==> ScanDated(t, fams[1..], next, j - 1))
        && (Overlaps(t, fams, prev, j) <==> Overlaps(t, fams[1..], next, j - 1))
  {
    assert forall j :: 1 <= j < |fams| ==> fams[j] == fams[1..][j - 1];
  }

  /** The scan's first family, when it exists: the scan raises unless its
      dates are there, and otherwise goes on with the rest, the bigamy
      message added if the family overlaps the one before it. */
  lemma BigamyStep(t: Tables, name: string, fams: seq<string>, prev: Option<(Option<Date>, Option<Date>)>, acc: seq<Message>)
    requires fams != [] && fams[0] in t.fams
    ensures var next := Some((t.fams[fams[0]].marr, t.fams[fams[0]].div));
      var acc1 := if Overlaps(t, fams, prev, 0) then AddErrorsIfNew(acc, Bigamy(name)) else acc;
      ScanDated(t, fams, prev, 0) ==> BigamyScan(t, name, fams, prev, acc) == BigamyScan(t, name, fams[1..], next, acc1)
    ensures var r := BigamyScan(t, name, fams, prev, acc);
      !ScanDated(t, fams, prev, 0) ==> r.Err? && r.error == TypeError
  {
    var f := t.fams[fams[0]];
    if ScanDated(t, fams, prev, 0) && prev.Some? && prev.value.1.Some? {
      DaysBetweenSign(f.marr.value, prev.value.0.value);
      DaysBetweenSign(f.marr.value, prev.value.1.value);
    }
  }

  /** Every family of the scan is dated exactly when the first is and every
      family of the rest is. */
  lemma ScanDatedShift(t: Tables, fams: seq<string>, prev: Option<(Option<Date>, Option<Date>)>)
    requires fams != [] && fams[0] in t.fams
    ensures var next := Some((t.fams[fams[0]].marr, t.fams[fams[0]].div));
      (forall j :: 0 <= j < |fams| ==> ScanDated(t, fams, prev, j))
      <==> ScanDated(t, fams, prev, 0) && forall j :: 0 <= j < |fams| - 1 ==> ScanDated(t, fams[1..], next, j)
  {
    var next := Some((t.fams[fams[0]].marr, t.fams[fams[0]].div));
    ScanShift(t, fams, prev);
    if forall j :: 0 <= j < |fams| ==> ScanDated(t, fams, prev, j) {
      forall j | 0 <= j < |fams| - 1 ensures ScanDated(t, fams[1..], next, j) {
        assert ScanDated(t, fams, prev, j + 1);
      }
    }
    if ScanDated(t, fams, prev, 0) && forall j :: 0 <= j < |fams| - 1 ==> ScanDated(t, fams[1..], next, j) {
      forall j | 1 <= j < |fams| ensures ScanDated(t, fams, prev, j) {
        assert ScanDated(t, fams[1..], next, j - 1);
      }
    }
  }

  /** Some family of the scan overlaps the one before it exactly when the
      first does or some family of the rest does. */
  lemma OverlapsShift(t: Tables, fams: seq<string>, prev: Option<(Option<Date>, Option<Date>)>)
    requires fams != [] && fams[0] in t.fams
    ensures var next := Some((t.fams[fams[0]].marr, t.fams[fams[0]].div));
      (exists j :: Overlaps(t, fams, prev, j))
      <==> Overlaps(t, fams, prev, 0) || exists j :: Overlaps(t, fams[1..], next, j)
  {
    var next := Some((t.fams[fams[0]].marr, t.fams[fams[0]].div));
    ScanShift(t, fams, prev);
    if exists j :: Overlaps(t, fams[1..], next, j) {
      var j :| Overlaps(t, fams[1..], next, j);
      assert Overlaps(t, fams, prev, j + 1);
    }
    if exists j :: Overlaps(t, fams, prev, j) {
      var j :| Overlaps(t, fams, prev, j);
      if j > 0 {
        assert Overlaps(t, fams[1..], next, j - 1);
      }
    }
  }

  /** US11 for one spouse's families raises unless every family exists and
      the dates compared are there. */
  lemma {:induction false} BigamyScanRaises(t: Tables, name: string, fams: seq<string>, prev: Option<(Option<Date>, Option<Date>)>, acc: seq<Message>)
    ensures BigamyScan(t, name, fams, prev, acc).Ok? <==> forall j :: 0 <= j < |fams| ==> ScanDated(t, fams, prev, j)
    ensures var r := BigamyScan(t, name, fams, prev, acc);
      r.Err? ==> r.error == KeyError || r.error == TypeError
    decreases |fams|
  {
    if fams != [] && fams[0] in t.fams {
      var next := Some((t.fams[fams[0]].marr, t.fams[fams[0]].div));
      var acc1 := if Overlaps(t, fams, prev, 0) then AddErrorsIfNew(acc, Bigamy(name)) else acc;
      BigamyStep(t, name, fams, prev, acc);
      ScanDatedShift(t, fams, prev);
      BigamyScanRaises(t, name, fams[1..], next, acc1);
    } else if fams != [] {
      assert !ScanDated(t, fams, prev, 0);
    }
  }

  /** US11 for one spouse's families, when it does not raise: the spouse's
      bigamy message is present afterwards exactly when it was before or
      some family overlaps the one before it, and it is the only message
      added. */
  lemma {:induction false} BigamyScanAdded(t: Tables, name: string, fams: seq<string>, prev: Option<(Option<Date>, Option<Date>)>, acc: seq<Message>)
    ensures var r := BigamyScan(t, name, fams, prev, acc);
      r.Ok? ==>
        (Bigamy(name) in r.value <==> Bigamy(name) in acc || exists j :: Overlaps(t, fams, prev, j))
        && forall m :: m in r.value[|acc|..] ==> m == Bigamy(name)
    decreases |fams|
  {
    var r := BigamyScan(t, name, fams, prev, acc);
    if fams != [] && fams[0] in t.fams {
      var next := Some((t.fams[fams[0]].marr, t.fams[fams[0]].div));
      var acc1 := if Overlaps(t, fams, prev, 0) then AddErrorsIfNew(acc, Bigamy(name)) else acc;
      BigamyStep(t, name, fams, prev, acc);
      if ScanDated(t, fams, prev, 0) {
        OverlapsShift(t, fams, prev);
        BigamyScanAdded(t, name, fams[1..], next, acc1);
        if r.Ok? {
          AddedSplit(acc, acc1, r.value);
          assert acc1[|acc|..] == [] || acc1[|acc|..] == [Bigamy(name)];
        }
      }
    }
  }

  /** US11 for one spouse's families: it raises unless every family exists
      and the dates compared are there; otherwise the spouse's bigamy message
      is present afterwards exactly when it was before or some family
      overlaps the one before it, and it is the only message added. */
  lemma BigamyScanIff(t: Tables, name: string, fams: seq<string>, prev: Option<(Option<Date>, Option<Date>)>, acc: seq<Message>)
    ensures BigamyScan(t, name, fams, prev, acc).Ok? <==> forall j :: 0 <= j < |fams| ==> ScanDated(t, fams, prev, j)
    ensures var r := BigamyScan(t, name, fams, prev, acc);
      r.Err? ==> r.error == KeyError || r.error == TypeError
    ensures var r := BigamyScan(t, name, fams, prev, acc);
      r.Ok? ==>
        (Bigamy(name) in r.value <==> Bigamy(name) in acc || exists j :: Overlaps(t, fams, prev, j))
        && forall m :: m in r.value[|acc|..] ==> m == Bigamy(name)
  {
    BigamyScanRaises(t, name, fams, prev, acc);
    BigamyScanAdded(t, name, fams, prev, acc);
  }

  /** US11 for one spouse: nothing happens with one family or none; with
      more, their families are scanned in sorted order, and the spouse is
      reported when some family began while the one before it had no
      divorce, or between that one's marriage and divorce. */
  lemma SpouseBigamyIff(t: Tables, p: IndiRec, acc: seq<Message>)
    ensures |p.fams| <= 1 ==> SpouseBigamy(t, p, acc) == Ok(acc)
    ensures var fams := Sorted(p.fams);
      |p.fams| > 1 ==>
        (SpouseBigamy(t, p, acc).Ok? <==> forall j :: 0 <= j < |fams| ==> ScanDated(t, fams, None, j))
    ensures var r, fams := SpouseBigamy(t, p, acc), Sorted(p.fams);
      |p.fams| > 1 && r.Ok? ==>
        (Bigamy(Show(p.name)) in r.value <==> Bigamy(Show(p.name)) in acc || exists j :: Overlaps(t, fams, None, j))
        && forall m :: m in r.value[|acc|..] ==> m == Bigamy(Show(p.name))
  {
    if |p.fams| > 1 {
      BigamyScanIff(t, Show(p.name), Sorted(p.fams), None, acc);
      assert SpouseBigamy(t, p, acc) == BigamyScan(t, Show(p.name), Sorted(p.fams), None, acc);
    }
  }

  // ---------------------------------------------------------------------------
  // US24 and US25: a key met before
  // ---------------------------------------------------------------------------

  /** `keys[j]` is in `seen` or occurs earlier in `keys`. */
  predicate RepeatedAt<K(==)>(keys: seq<K>, seen: seq<K>, j: int)
  {
    0 <= j < |keys| && (keys[j] in seen || exists i :: 0 <= i < j && keys[i] == keys[j])
  }

  /** After the first key, a key is repeated exactly when it is repeated in
      the rest with the first key counted as seen. */
  lemma RepeatedShift<K>(keys: seq<K>, seen: seq<K>, j: int)
    requires 1 <= j < |keys|
    ensures RepeatedAt(keys, seen, j) <==> RepeatedAt(keys[1..], if keys[0] in seen then seen else seen + [keys[0]], j - 1)
  {
    var seen' := if keys[0] in seen then seen else seen + [keys[0]];
    if RepeatedAt(keys, seen, j) && keys[j] !in seen {
      var i :| 0 <= i < j && keys[i] == keys[j];
      if i > 0 {
        assert keys[1..][i - 1] == keys[1..][j - 1];
      } else {
        assert keys[j] in seen';
      }
    }
    if RepeatedAt(keys[1..], seen', j - 1) {
      if keys[1..][j - 1] in seen' {
        if keys[j] !in seen {
          assert keys[0] == keys[j];
        }
      } else {
        var i :| 0 <= i < j - 1 && keys[1..][i] == keys[1..][j - 1];
        assert keys[i + 1] == keys[j];
      }
    }
  }

  /** `m` is the message `msgs[j]` of an entry `j` whose key is repeated. */
  ghost predicate RepeatedMessage<K, M>(keys: seq<K>, msgs: seq<M>, seen: seq<K>, m: M)
  {
    exists j :: RepeatedAt(keys, seen, j) && j < |msgs| && m == msgs[j]
  }

  /** The first entry's message if its key is seen, and then the rest with
      the first key counted as seen. */
  lemma RepeatedMessageStep<K, M>(keys: seq<K>, msgs: seq<M>, seen: seq<K>, m: M)
    requires |keys| == |msgs| > 0
    ensures RepeatedMessage(keys, msgs, seen, m) <==>
      (keys[0] in seen && m == msgs[0])
      || RepeatedMessage(keys[1..], msgs[1..], if keys[0] in seen then seen else seen + [keys[0]], m)
  {
    var seen' := if keys[0] in seen then seen else seen + [keys[0]];
    if RepeatedMessage(keys, msgs, seen, m) {
      var j :| RepeatedAt(keys, seen, j) && j < |msgs| && m == msgs[j];
      if j > 0 {
        RepeatedShift(keys, seen, j);
        assert RepeatedAt(keys[1..], seen', j - 1) && m == msgs[1..][j - 1];
      }
    }
    if RepeatedMessage(keys[1..], msgs[1..], seen', m) {
      var j :| RepeatedAt(keys[1..], seen', j) && j < |msgs[1..]| && m == msgs[1..][j];
      RepeatedShift(keys, seen, j + 1);
      assert RepeatedAt(keys, seen, j + 1) && m == msgs[j + 1];
    }
    if keys[0] in seen && m == msgs[0] {
      assert RepeatedAt(keys, seen, 0);
    }
  }

  /** The names and marriage date US24 compares. */
  function SpouseKey(t: Tables, f: FamRec): (Option<string>, Option<string>, Option<Date>)
    requires Spouses(t, f).Ok?
  {
    (t.inds[f.husb.value].name, t.inds[f.wife.value].name, f.marr)
  }

  /** Both spouses of every family in `xs` are individuals. */
  predicate AllCouples(t: Tables, xs: seq<(string, FamRec)>)
  {
    forall j :: 0 <= j < |xs| ==> Spouses(t, xs[j].1).Ok?
  }

  function CoupleKeys(t: Tables, xs: seq<(string, FamRec)>): (r: seq<(Option<string>, Option<string>, Option<Date>)>)
    requires AllCouples(t, xs)
    ensures |r| == |xs| && forall j :: 0 <= j < |xs| ==> r[j] == SpouseKey(t, xs[j].1)
  {
    seq(|xs|, j requires 0 <= j < |xs| => SpouseKey(t, xs[j].1))
  }

  /** The US24 message for family `f`. */
  function DuplicateCouple(t: Tables, f: FamRec): Message
    requires Spouses(t, f).Ok?
  {
    DuplicateSpouses(Show(t.inds[f.husb.value].name), Show(t.inds[f.wife.value].name), f.marr)
  }

  function CoupleMessages(t: Tables, xs: seq<(string, FamRec)>): (r: seq<Message>)
    requires AllCouples(t, xs)
    ensures |r| == |xs| && forall j :: 0 <= j < |xs| ==> r[j] == DuplicateCouple(t, xs[j].1)
  {
    seq(|xs|, j requires 0 <= j < |xs| => DuplicateCouple(t, xs[j].1))
  }

  /** `m` is the US24 message of a family in `xs` whose key is repeated. */
  ghost predicate CoupleRepeated(t: Tables, xs: seq<(string, FamRec)>, seen: seq<(Option<string>, Option<string>, Option<Date>)>, m: Message)
    requires AllCouples(t, xs)
  {
    RepeatedMessage(CoupleKeys(t, xs), CoupleMessages(t, xs), seen, m)
  }

  lemma CoupleRepeatedStep(t: Tables, xs: seq<(string, FamRec)>, seen: seq<(Option<string>, Option<string>, Option<Date>)>, m: Message)
    requires xs != [] && AllCouples(t, xs)
    ensures AllCouples(t, xs[1..])
    ensures var key := SpouseKey(t, xs[0].1);
      CoupleRepeated(t, xs, seen, m) <==>
        (key in seen && m == DuplicateCouple(t, xs[0].1))
        || CoupleRepeated(t, xs[1..], if key in seen then seen else seen + [key], m)
  {
    assert forall j :: 1 <= j < |xs| ==> xs[j] == xs[1..][j - 1];
    assert CoupleKeys(t, xs)[1..] == CoupleKeys(t, xs[1..]);
    assert CoupleMessages(t, xs)[1..] == CoupleMessages(t, xs[1..]);
    RepeatedMessageStep(CoupleKeys(t, xs), CoupleMessages(t, xs), seen, m);
  }

  /** US24: it raises `KeyError` unless every family's spouses are
      individuals; otherwise it reports each family whose husband's name,
      wife's name and marriage date are in `seen` or belong to an earlier
      family, and nothing else. */
  lemma {:induction false} DuplicateSpousesIff(t: Tables, xs: seq<(string, FamRec)>, seen: seq<(Option<string>, Option<string>, Option<Date>)>, acc: seq<Message>)
    ensures UniqueSpousesInFamily(t, xs, seen, acc).Ok? <==> AllCouples(t, xs)
    ensures var r := UniqueSpousesInFamily(t, xs, seen, acc);
      r.Err? ==> r.error == KeyError
    ensures var r := UniqueSpousesInFamily(t, xs, seen, acc);
      r.Ok? ==> forall m :: m in r.value[|acc|..] <==> CoupleRepeated(t, xs, seen, m)
    decreases |xs|
  {
    assert forall j :: 1 <= j < |xs| ==> xs[j] == xs[1..][j - 1];
    if xs != [] && Spouses(t, xs[0].1).Ok? {
      var key := SpouseKey(t, xs[0].1);
      var seen' := if key in seen then seen else seen + [key];
      var acc1 := if key in seen then acc + [DuplicateCouple(t, xs[0].1)] else acc;
      var r := UniqueSpousesInFamily(t, xs, seen, acc);
      DuplicateSpousesIff(t, xs[1..], seen', acc1);
      assert r == UniqueSpousesInFamily(t, xs[1..], seen', acc1);
      if r.Ok? {
        AddedSplit(acc, acc1, r.value);
        forall m
          ensures m in r.value[|acc|..] <==> CoupleRepeated(t, xs, seen, m)
        {
          CoupleRepeatedStep(t, xs, seen, m);
        }
      }
    }
  }

  /** The name and birth date US25 compares. */
  function ChildKey(t: Tables, k: string): (Option<string>, Option<Date>)
    requires k in t.inds
  {
    (t.inds[k].name, t.inds[k].birt)
  }

  predicate AllPeople(t: Tables, kids: seq<string>)
  {
    forall j :: 0 <= j < |kids| ==> kids[j] in t.inds
  }

  function ChildKeys(t: Tables, kids: seq<string>): (r: seq<(Option<string>, Option<Date>)>)
    requires AllPeople(t, kids)
    ensures |r| == |kids| && forall j :: 0 <= j < |kids| ==> r[j] == ChildKey(t, kids[j])
  {
    seq(|kids|, j requires 0 <= j < |kids| => ChildKey(t, kids[j]))
  }

  function DuplicateChildOf(t: Tables, id: string, k: string): Message
    requires k in t.inds
  {
    DuplicateChild(Show(t.inds[k].name), t.inds[k].birt, id)
  }

  function ChildMessages(t: Tables, id: string, kids: seq<string>): (r: seq<Message>)
    requires AllPeople(t, kids)
    ensures |r| == |kids| && forall j :: 0 <= j < |kids| ==> r[j] == DuplicateChildOf(t, id, kids[j])
  {
    seq(|kids|, j requires 0 <= j < |kids| => DuplicateChildOf(t, id, kids[j]))
  }

  /** `m` is the US25 message of a child in `kids` whose key is repeated. */
  ghost predicate ChildRepeated(t: Tables, id: string, kids: seq<string>, seen: seq<(Option<string>, Option<Date>)>, m: Message)
    requires AllPeople(t, kids)
  {
    RepeatedMessage(ChildKeys(t, kids), ChildMessages(t, id, kids), seen, m)
  }

  lemma ChildRepeatedStep(t: Tables, id: string, kids: seq<string>, seen: seq<(Option<string>, Option<Date>)>, m: Message)
    requires kids != [] && AllPeople(t, kids)
    ensures AllPeople(t, kids[1..])
    ensures var key := ChildKey(t, kids[0]);
      ChildRepeated(t, id, kids, seen, m) <==>
        (key in seen && m == DuplicateChildOf(t, id, kids[0]))
        || ChildRepeated(t, id, kids[1..], if key in seen then seen else seen + [key], m)
  {
    assert forall j :: 1 <= j < |kids| ==> kids[j] == kids[1..][j - 1];
    assert ChildKeys(t, kids)[1..] == ChildKeys(t, kids[1..]);
    assert ChildMessages(t, id, kids)[1..] == ChildMessages(t, id, kids[1..]);
    RepeatedMessageStep(ChildKeys(t, kids), ChildMessages(t, id, kids), seen, m);
  }

  /** US25 for the children `kids` of family `id`: it raises `KeyError`
      unless every child is an individual; otherwise it reports each child
      whose name and birth date are in `seen` or belong to an earlier child,
      and nothing else. */
  lemma {:induction false} DuplicateChildrenIff(t: Tables, id: string, kids: seq<string>, seen: seq<(Option<string>, Option<Date>)>, acc: seq<Message>)
    ensures UniqueChildren(t, id, kids, seen, acc).Ok? <==> AllPeople(t, kids)
    ensures var r := UniqueChildren(t, id, kids, seen, acc);
      r.Err? ==> r.error == KeyError
    ensures var r := UniqueChildren(t, id, kids, seen, acc);
      r.Ok? ==> forall m :: m in r.value[|acc|..] <==> ChildRepeated(t, id, kids, seen, m)
    decreases |kids|
  {
    assert forall j :: 1 <= j < |kids| ==> kids[j] == kids[1..][j - 1];
    if kids != [] && kids[0] in t.inds {
      var key := ChildKey(t, kids[0]);
      var seen' := if key in seen then seen else seen + [key];
      var acc1 := if key in seen then acc + [DuplicateChildOf(t, id, kids[0])] else acc;
      var r := UniqueChildren(t, id, kids, seen, acc);
      DuplicateChildrenIff(t, id, kids[1..], seen', acc1);
      assert r == UniqueChildren(t, id, kids[1..], seen', acc1);
      if r.Ok? {
        AddedSplit(acc, acc1, r.value);
        forall m
          ensures m in r.value[|acc|..] <==> ChildRepeated(t, id, kids, seen, m)
        {
          ChildRepeatedStep(t, id, kids, seen, m);
        }
      }
    }
  }

  // ---------------------------------------------------------------------------
  // US23: a name and birth date met before
  // ---------------------------------------------------------------------------

  function NameKeys(xs: seq<(string, IndiRec)>): (r: seq<(Option<string>, Option<Date>)>)
    ensures |r| == |xs| && forall j :: 0 <= j < |xs| ==> r[j] == (xs[j].1.name, xs[j].1.birt)
  {
    seq(|xs|, j requires 0 <= j < |xs| => (xs[j].1.name, xs[j].1.birt))
  }

  function NameMessages(xs: seq<(string, IndiRec)>): (r: seq<Message>)
    ensures |r| == |xs| && forall j :: 0 <= j < |xs| ==> r[j] == DuplicateNameAndBirthday(Show(xs[j].1.name), xs[j].1.birt)
  {
    seq(|xs|, j requires 0 <= j < |xs| => DuplicateNameAndBirthday(Show(xs[j].1.name), xs[j].1.birt))
  }

  /** `m` is the US23 message of an individual in `xs` whose name and birth
      date are repeated. */
  ghost predicate NameRepeated(xs: seq<(string, IndiRec)>, seen: seq<(Option<string>, Option<Date>)>, m: Message)
  {
    RepeatedMessage(NameKeys(xs), NameMessages(xs), seen, m)
  }

  lemma NameRepeatedStep(xs: seq<(string, IndiRec)>, seen: seq<(Option<string>, Option<Date>)>, m: Message)
    requires xs != []
    ensures var key := (xs[0].1.name, xs[0].1.birt);
      NameRepeated(xs, seen, m) <==>
        (key in seen && m == DuplicateNameAndBirthday(Show(xs[0].1.name), xs[0].1.birt))
        || NameRepeated(xs[1..], if key in seen then seen else seen + [key], m)
  {
    assert forall j :: 1 <= j < |xs| ==> xs[j] == xs[1..][j - 1];
    assert NameKeys(xs)[1..] == NameKeys(xs[1..]);
    assert NameMessages(xs)[1..] == NameMessages(xs[1..]);
    RepeatedMessageStep(NameKeys(xs), NameMessages(xs), seen, m);
  }

  /** US23: it reports each individual whose name and birth date are in
      `seen` or belong to an earlier individual, and nothing else. */
  lemma {:induction false} DuplicateNamesAdded(xs: seq<(string, IndiRec)>, seen: seq<(Option<string>, Option<Date>)>, acc: seq<Message>)
    ensures var r := UniqueNamesAndBdays(xs, seen, acc);
      forall m :: m in r[|acc|..] <==> NameRepeated(xs, seen, m)
    decreases |xs|
  {
    if xs != [] {
      var key := (xs[0].1.name, xs[0].1.birt);
      var seen' := if key in seen then seen else seen + [key];
      var acc1 := if key in seen then acc + [DuplicateNameAndBirthday(Show(xs[0].1.name), xs[0].1.birt)] else acc;
      var r := UniqueNamesAndBdays(xs, seen, acc);
      DuplicateNamesAdded(xs[1..], seen', acc1);
      assert r == UniqueNamesAndBdays(xs[1..], seen', acc1);
      AddedSplit(acc, acc1, r);
      forall m
        ensures m in r[|acc|..] <==> NameRepeated(xs, seen, m)
      {
        NameRepeatedStep(xs, seen, m);
      }
    }
  }
}

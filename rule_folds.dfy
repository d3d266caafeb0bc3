/** What the checks that visit every record in turn report over the whole
    table: the messages of each record, as `RuleTriggers` states them, taken
    together. */
module RuleFolds {
  import opened Wrappers
  import opened Strings
  import opened Dates
  import opened Messages
  import opened Records
  import opened Rules
  import RuleTriggers
  import RuleScans

  // ---------------------------------------------------------------------------
  // US01
  // ---------------------------------------------------------------------------

  /** `m` is a US01 message for the individual `p`: its birth, or its death,
      is after today. */
  predicate PersonInFuture(today: Date, p: IndiRec, m: Message)
  {
    p.birt.Some?
    && ((m == BirthInFuture(Show(p.name)) && Before(today, p.birt.value))
        || (m == DeathInFuture(Show(p.name)) && p.deat.Some? && Before(today, p.deat.value)))
  }

  /** `m` is a US01 message for one of the individuals `xs`. */
  ghost predicate SomePersonInFuture(today: Date, xs: seq<(string, IndiRec)>, m: Message)
  {
    exists i :: 0 <= i < |xs| && PersonInFuture(today, xs[i].1, m)
  }

  lemma SomePersonInFutureStep(today: Date, xs: seq<(string, IndiRec)>, m: Message)
    requires xs != []
    ensures SomePersonInFuture(today, xs, m) <==> PersonInFuture(today, xs[0].1, m) || SomePersonInFuture(today, xs[1..], m)
  {
    if SomePersonInFuture(today, xs, m) {
      var i :| 0 <= i < |xs| && PersonInFuture(today, xs[i].1, m);
      if i > 0 {
        assert xs[1..][i - 1] == xs[i];
      }
    }
    if SomePersonInFuture(today, xs[1..], m) {
      var i :| 0 <= i < |xs[1..]| && PersonInFuture(today, xs[1..][i].1, m);
      assert xs[i + 1] == xs[1..][i];
    }
  }

  /** US01 over the individuals `xs`: it raises exactly when one of them has
      no birth date; otherwise it adds exactly the messages for births and
      deaths after today. */
  lemma {:induction false} US01PeopleIff(today: Date, xs: seq<(string, IndiRec)>, acc: seq<Message>)
    ensures US01People(today, xs, acc).Ok? <==> forall i :: 0 <= i < |xs| ==> xs[i].1.birt.Some?
    ensures var r := US01People(today, xs, acc);
      r.Ok? ==> forall m :: m in r.value[|acc|..] <==> SomePersonInFuture(today, xs, m)
    decreases |xs|
  {
    if xs != [] {
      var p := xs[0].1;
      var r1 := DatesBeforeCurrPerson(today, p, acc);
      RuleTriggers.FutureDatesOfPerson(today, p, acc);
      if r1.Ok? {
        var r := US01People(today, xs, acc);
        assert r == US01People(today, xs[1..], r1.value);
        US01PeopleIff(today, xs[1..], r1.value);
        if r.Ok? {
          RuleScans.AddedSplit(acc, r1.value, r.value);
          forall m
            ensures m in r.value[|acc|..] <==> SomePersonInFuture(today, xs, m)
          {
            SomePersonInFutureStep(today, xs, m);
            assert m in r1.value[|acc|..] <==> PersonInFuture(today, p, m);
          }
        }
        if forall i :: 0 <= i < |xs[1..]| ==> xs[1..][i].1.birt.Some? {
          forall i | 0 <= i < |xs|
            ensures xs[i].1.birt.Some?
          {
            if i > 0 {
              assert xs[i] == xs[1..][i - 1];
            }
          }
        }
      }
    }
  }

  /** Family `f` has the dates US01 needs: a marriage date, and both
      spouses when a message names them. */
  predicate FamilyDatesKnown(t: Tables, today: Date, f: FamRec)
  {
    f.marr.Some? && ((Before(today, f.marr.value) || (f.div.Some? && Before(today, f.div.value))) ==> Spouses(t, f).Ok?)
  }

  /** `m` is a US01 message for the family `f`: its marriage, or its
      divorce, is after today. */
  predicate FamilyInFuture(t: Tables, today: Date, f: FamRec, m: Message)
  {
    f.marr.Some? && Spouses(t, f).Ok?
    && ((m == MarriageInFuture(RuleTriggers.HusbandName(t, f), RuleTriggers.WifeName(t, f)) && Before(today, f.marr.value))
        || (m == DivorceInFuture(RuleTriggers.HusbandName(t, f), RuleTriggers.WifeName(t, f)) && f.div.Some? && Before(today, f.div.value)))
  }

  /** `m` is a US01 message for one of the families `xs`. */
  ghost predicate SomeFamilyInFuture(t: Tables, today: Date, xs: seq<(string, FamRec)>, m: Message)
  {
    exists i :: 0 <= i < |xs| && FamilyInFuture(t, today, xs[i].1, m)
  }

  lemma SomeFamilyInFutureStep(t: Tables, today: Date, xs: seq<(string, FamRec)>, m: Message)
    requires xs != []
    ensures SomeFamilyInFuture(t, today, xs, m) <==> FamilyInFuture(t, today, xs[0].1, m) || SomeFamilyInFuture(t, today, xs[1..], m)
  {
    if SomeFamilyInFuture(t, today, xs, m) {
      var i :| 0 <= i < |xs| && FamilyInFuture(t, today, xs[i].1, m);
      if i > 0 {
        assert xs[1..][i - 1] == xs[i];
      }
    }
    if SomeFamilyInFuture(t, today, xs[1..], m) {
      var i :| 0 <= i < |xs[1..]| && FamilyInFuture(t, today, xs[1..][i].1, m);
      assert xs[i + 1] == xs[1..][i];
    }
  }

  /** What US01 adds for one family is exactly its `FamilyInFuture`
      messages. */
  lemma FamilyInFutureAdded(t: Tables, today: Date, f: FamRec, acc: seq<Message>, m: Message)
    requires DatesBeforeCurrFamily(t, today, f, acc).Ok?
    ensures m in DatesBeforeCurrFamily(t, today, f, acc).value[|acc|..] <==> FamilyInFuture(t, today, f, m)
  {
    RuleTriggers.FutureDatesOfFamilyAdded(t, today, f, acc);
    var r := DatesBeforeCurrFamily(t, today, f, acc).value;
    var late, lateDivorce := Before(today, f.marr.value), f.div.Some? && Before(today, f.div.value);
    if late || lateDivorce {
      var h, w := RuleTriggers.HusbandName(t, f), RuleTriggers.WifeName(t, f);
      var married := if late then [MarriageInFuture(h, w)] else [];
      var divorced := if lateDivorce then [DivorceInFuture(h, w)] else [];
      assert r[|acc|..] == married + divorced;
    } else {
      assert r[|acc|..] == [];
    }
  }

  /** US01 over the families `xs`: it raises exactly when one of them lacks
      the dates or spouses it needs; otherwise it adds exactly the messages
      for marriages and divorces after today. */
  lemma {:induction false} US01FamiliesIff(t: Tables, today: Date, xs: seq<(string, FamRec)>, acc: seq<Message>)
    ensures US01Families(t, today, xs, acc).Ok? <==> forall i :: 0 <= i < |xs| ==> FamilyDatesKnown(t, today, xs[i].1)
    ensures var r := US01Families(t, today, xs, acc);
      r.Ok? ==> forall m :: m in r.value[|acc|..] <==> SomeFamilyInFuture(t, today, xs, m)
    decreases |xs|
  {
    if xs != [] {
      var f := xs[0].1;
      var r1 := DatesBeforeCurrFamily(t, today, f, acc);
      RuleTriggers.FutureDatesOfFamilyRaises(t, today, f, acc);
      if r1.Ok? {
        var r := US01Families(t, today, xs, acc);
        assert r == US01Families(t, today, xs[1..], r1.value);
        US01FamiliesIff(t, today, xs[1..], r1.value);
        if r.Ok? {
          RuleScans.AddedSplit(acc, r1.value, r.value);
          forall m
            ensures m in r.value[|acc|..] <==> SomeFamilyInFuture(t, today, xs, m)
          {
            SomeFamilyInFutureStep(t, today, xs, m);
            FamilyInFutureAdded(t, today, f, acc, m);
          }
        }
        if forall i :: 0 <= i < |xs[1..]| ==> FamilyDatesKnown(t, today, xs[1..][i].1) {
          forall i | 0 <= i < |xs|
            ensures FamilyDatesKnown(t, today, xs[i].1)
          {
            if i > 0 {
              assert xs[i] == xs[1..][i - 1];
            }
          }
        }
      }
    }
  }

  /** US01: it adds exactly the messages for the marriages and divorces of
      the families, and for the births and deaths of the individuals, that
      are after today. */
  lemma US01Meaning(t: Tables, today: Date, acc: seq<Message>)
    ensures var r := US01(t, today, acc);
      r.Ok? ==> forall m :: m in r.value[|acc|..] <==>
                  SomeFamilyInFuture(t, today, Households(t), m) || SomePersonInFuture(today, People(t), m)
  {
    var r := US01(t, today, acc);
    if r.Ok? {
      var r1 := US01Families(t, today, Households(t), acc);
      US01FamiliesIff(t, today, Households(t), acc);
      US01PeopleIff(today, People(t), r1.value);
      RuleScans.AddedSplit(acc, r1.value, r.value);
    }
  }
}

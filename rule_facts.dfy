/** What the rules of `Rules` promise: the date comparisons they stand for,
    their quirks, and the bounds and de-duplication they keep. */
module RuleFacts {
  import opened Wrappers
  import opened Strings
  import opened Dates
  import opened Messages
  import opened Records
  import opened Rules
  import Assembly
  import AssemblyFacts

  // ---------------------------------------------------------------------------
  // add_errors_if_new and US11
  // ---------------------------------------------------------------------------

  /** `m` occurs at most once in `s`. */
  predicate AtMostOnce(s: seq<Message>, m: Message)
  {
    multiset(s)[m] <= 1
  }

  /** Adding a message again changes nothing, and a message that occurred at
      most once still does. */
  lemma AddErrorsIfNewFacts(acc: seq<Message>, e: Message, m: Message)
    ensures AddErrorsIfNew(AddErrorsIfNew(acc, e), e) == AddErrorsIfNew(acc, e)
    ensures AtMostOnce(acc, m) ==> AtMostOnce(AddErrorsIfNew(acc, e), m)
  {
    if e !in acc {
      assert multiset(acc + [e]) == multiset(acc) + multiset{e};
    }
  }

  /** The source compares message texts; the model compares messages. For a
      bigamy message the two tests agree. */
  lemma BigamyTextIn(acc: seq<Message>, n: string)
    ensures Bigamy(n) in acc <==> exists i :: 0 <= i < |acc| && Render(acc[i]) == Render(Bigamy(n))
  {
    if exists i :: 0 <= i < |acc| && Render(acc[i]) == Render(Bigamy(n)) {
      var i :| 0 <= i < |acc| && Render(acc[i]) == Render(Bigamy(n));
      SameTextAsBigamy(acc[i], n);
    }
    if Bigamy(n) in acc {
      var i :| 0 <= i < |acc| && acc[i] == Bigamy(n);
      assert Render(acc[i]) == Render(Bigamy(n));
    }
  }

  lemma {:induction false} BigamyScanOnce(t: Tables, name: string, fams: seq<string>, prev: Option<(Option<Date>, Option<Date>)>, acc: seq<Message>, m: Message)
    requires AtMostOnce(acc, m)
    ensures BigamyScan(t, name, fams, prev, acc).Ok? ==> AtMostOnce(BigamyScan(t, name, fams, prev, acc).value, m)
    decreases |fams|
  {
    if fams != [] && Union(t, Some(fams[0])).Ok? {
      var f := t.fams[fams[0]];
      AddErrorsIfNewFacts(acc, Bigamy(name), m);
      var acc1 :=
        if prev.None? then Ok(acc)
        else if prev.value.1.None? then Ok(AddErrorsIfNew(acc, Bigamy(name)))
        else if f.marr.None? || prev.value.0.None? then Err(TypeError)
        else if DaysBetween(f.marr.value, prev.value.0.value) > 0 && DaysBetween(f.marr.value, prev.value.1.value) < 0
        then Ok(AddErrorsIfNew(acc, Bigamy(name))) else Ok(acc);
      if acc1.Ok? {
        BigamyScanOnce(t, name, fams[1..], Some((f.marr, f.div)), acc1.value, m);
      }
    }
  }

  lemma {:induction false} NoBigamyOnce(t: Tables, xs: seq<(string, FamRec)>, acc: seq<Message>, m: Message)
    requires AtMostOnce(acc, m)
    ensures NoBigamy(t, xs, acc).Ok? ==> AtMostOnce(NoBigamy(t, xs, acc).value, m)
    decreases |xs|
  {
    if xs != [] && Person(t, xs[0].1.husb).Ok? {
      var husband := Person(t, xs[0].1.husb).value;
      if |husband.fams| == 1 {
        NoBigamyOnce(t, xs[1..], acc, m);
      } else {
        var acc1 := SpouseBigamy(t, husband, acc);
        if |husband.fams| > 1 {
          BigamyScanOnce(t, Show(husband.name), Sorted(husband.fams), None, acc, m);
        }
        if acc1.Ok? && Person(t, xs[0].1.wife).Ok? {
          var wife := Person(t, xs[0].1.wife).value;
          var acc2 := SpouseBigamy(t, wife, acc1.value);
          if |wife.fams| > 1 {
            BigamyScanOnce(t, Show(wife.name), Sorted(wife.fams), None, acc1.value, m);
          }
          if acc2.Ok? {
            NoBigamyOnce(t, xs[1..], acc2.value, m);
          }
        }
      }
    }
  }

  /** US11 adds each spouse's bigamy message at most once: a message that
      occurred at most once before the check still does after it. */
  lemma BigamyReportedOnce(t: Tables, acc: seq<Message>, n: string)
    requires AtMostOnce(acc, Bigamy(n))
    ensures US11(t, acc).Ok? ==> AtMostOnce(US11(t, acc).value, Bigamy(n))
  {
    NoBigamyOnce(t, Households(t), acc, Bigamy(n));
  }

  /** A family whose husband has exactly one family is skipped, the wife's
      families unexamined. */
  lemma OneFamilyHusbandSkipsFamily(t: Tables, xs: seq<(string, FamRec)>, acc: seq<Message>)
    requires xs != [] && Person(t, xs[0].1.husb).Ok?
    requires |Person(t, xs[0].1.husb).value.fams| == 1
    ensures NoBigamy(t, xs, acc) == NoBigamy(t, xs[1..], acc)
  {
  }

  // ---------------------------------------------------------------------------
  // Rules written with day differences are strict comparisons
  // ---------------------------------------------------------------------------

  /** US03 flags a death strictly before the birth, never the same day. A
      death with no birth date raises. */
  lemma DeathBeforeBirthIff(p: IndiRec, acc: seq<Message>)
    ensures p.deat.None? ==> BirthBeforeDeath(p, acc) == Ok(acc)
    ensures p.deat.Some? && p.birt.None? ==> BirthBeforeDeath(p, acc) == Err(TypeError)
    ensures p.deat.Some? && p.birt.Some? ==>
      BirthBeforeDeath(p, acc)
        == Ok(if Before(p.deat.value, p.birt.value) then acc + [DeathBeforeBirth(Show(p.name))] else acc)
  {
    if p.deat.Some? && p.birt.Some? {
      DaysBetweenSign(p.deat.value, p.birt.value);
    }
  }

  /** US04 flags a divorce strictly before the marriage, never the same day;
      only then are the spouses looked up. */
  lemma DivorceBeforeMarriageIff(t: Tables, f: FamRec, acc: seq<Message>)
    requires f.div.Some? && f.marr.Some?
    ensures !Before(f.div.value, f.marr.value) ==> MarrBeforeDiv(t, f, acc) == Ok(acc)
    ensures Before(f.div.value, f.marr.value) ==>
      (MarrBeforeDiv(t, f, acc).Ok? <==> Spouses(t, f).Ok?)
      && (MarrBeforeDiv(t, f, acc).Ok? ==>
            MarrBeforeDiv(t, f, acc).value == acc + [DivorceBeforeMarriage(Show(t.inds[f.husb.value].name), Show(t.inds[f.wife.value].name))])
  {
    DaysBetweenSign(f.div.value, f.marr.value);
  }

  /** US08 for a child whose parents' family, birth date and parents'
      marriage date are known: born on or before the wedding day, or else
      nine calendar months or more after a divorce; at most one message. */
  lemma BirthBeforeMarriageCases(t: Tables, p: IndiRec, acc: seq<Message>)
    requires p.famc.Some? && p.famc.value in t.fams
    requires p.birt.Some? && t.fams[p.famc.value].marr.Some?
    ensures var f := t.fams[p.famc.value];
      var months := if f.div.Some? then MonthsBetween(p.birt.value, f.div.value) else 0;
      BirthBeforeMarriage(t, p, acc)
        == Ok(if !Before(f.marr.value, p.birt.value) then acc + [BornBeforeParentsMarried(Show(p.name))]
              else if f.div.Some? && months >= 9 then acc + [BornAfterParentsDivorced(Show(p.name), months)]
              else acc)
  {
    DaysBetweenSign(p.birt.value, t.fams[p.famc.value].marr.value);
  }

  /** US09 flags a birth on the mother's death day, as well as any later
      one, and never an earlier one. */
  lemma BornOnMothersDeathDay(t: Tables, p: IndiRec, acc: seq<Message>)
    requires p.famc.Some? && p.famc.value in t.fams
    requires var f := t.fams[p.famc.value];
      Person(t, f.husb).Ok? && Person(t, f.wife).Ok? && t.inds[f.husb.value].deat.None?
    requires p.birt.Some? && t.inds[t.fams[p.famc.value].wife.value].deat.Some?
    ensures var death := t.inds[t.fams[p.famc.value].wife.value].deat.value;
      BirthBeforeDeathOfParents(t, p, acc)
        == Ok(if Before(p.birt.value, death) then acc else acc + [BornAfterMotherDied(Show(p.name))])
  {
    DaysBetweenSign(p.birt.value, t.inds[t.fams[p.famc.value].wife.value].deat.value);
  }

  // ---------------------------------------------------------------------------
  // US05 and US06
  // ---------------------------------------------------------------------------

  /** The loop stops at the first family whose spouses are both alive: the
      families after it are never examined. */
  lemma {:induction false} MarrDivBreakIgnoresRest(t: Tables, xs: seq<(string, FamRec)>, ys: seq<(string, FamRec)>, acc: seq<Message>)
    requires xs != []
    requires var last := xs[|xs| - 1].1;
      Person(t, last.husb).Ok? && Person(t, last.wife).Ok?
      && Person(t, last.husb).value.deat.None? && Person(t, last.wife).value.deat.None?
    ensures MarrDivBeforeDeath(t, xs + ys, acc) == MarrDivBeforeDeath(t, xs, acc)
    decreases |xs|
  {
    assert (xs + ys)[0] == xs[0];
    if |xs| > 1 {
      assert (xs + ys)[1..] == xs[1..] + ys;
      assert xs[1..][|xs[1..]| - 1] == xs[|xs| - 1];
      var husband, wife := Person(t, xs[0].1.husb), Person(t, xs[0].1.wife);
      if husband.Ok? && wife.Ok? && (husband.value.deat.Some? || wife.value.deat.Some?) {
        var acc1 := DiedBeforeWedding(husband.value, wife.value, xs[0].1, acc);
        if acc1.Ok? {
          MarrDivBreakIgnoresRest(t, xs[1..], ys, acc1.value);
        }
      }
    }
  }

  /** When the husband is dead only his death is compared: the wife's death
      date, before the wedding or not, makes no difference. */
  lemma DeadHusbandHidesWife(husband: IndiRec, wife: IndiRec, f: FamRec, acc: seq<Message>, d: Option<Date>)
    requires husband.deat.Some?
    ensures DiedBeforeWedding(husband, wife, f, acc) == DiedBeforeWedding(husband, wife.(deat := d), f, acc)
  {
  }

  // ---------------------------------------------------------------------------
  // US13
  // ---------------------------------------------------------------------------

  /** All of `kids` are individuals born on the day `d`. */
  ghost predicate BornOn(t: Tables, kids: seq<string>, d: Date)
  {
    forall k :: 0 <= k < |kids| ==> kids[k] in t.inds && t.inds[kids[k]].birt == Some(d)
  }

  lemma {:induction false} SameDaySpacingWith(t: Tables, kids: seq<string>, i: nat, j: nat, d: Date, acc: seq<Message>)
    requires i < |kids| && BornOn(t, kids, d)
    ensures SpacingWith(t, kids, i, j, acc) == Ok(acc)
    decreases |kids| - j
  {
    if j < |kids| {
      assert SpacedPair(t, kids[i], kids[j], acc) == Ok(acc);
      SameDaySpacingWith(t, kids, i, j + 1, d, acc);
    }
  }

  /** Siblings all born on the same day are never reported. */
  lemma {:induction false} SameDaySiblingsNotFlagged(t: Tables, kids: seq<string>, i: nat, d: Date, acc: seq<Message>)
    requires BornOn(t, kids, d)
    ensures SpacingFrom(t, kids, i, acc) == Ok(acc)
    decreases |kids| - i
  {
    if i < |kids| {
      SameDaySpacingWith(t, kids, i, i + 1, d, acc);
      SameDaySiblingsNotFlagged(t, kids, i + 1, d, acc);
    }
  }

  lemma {:induction false} SpacingWithBound(t: Tables, kids: seq<string>, i: nat, j: nat, acc: seq<Message>)
    requires i < |kids|
    ensures SpacingWith(t, kids, i, j, acc).Ok? ==>
      |SpacingWith(t, kids, i, j, acc).value| <= |acc| + (if j <= |kids| then |kids| - j else 0)
    decreases |kids| - j
  {
    if j < |kids| {
      var acc1 := SpacedPair(t, kids[i], kids[j], acc);
      if acc1.Ok? {
        SpacingWithBound(t, kids, i, j + 1, acc1.value);
      }
    }
  }

  /** The number of unordered pairs among `n` children, counted the way
      the two nested loops visit them. */
  function PairCount(n: nat): nat
  {
    if n == 0 then 0 else n - 1 + PairCount(n - 1)
  }

  /** There are n(n-1)/2 of them. */
  lemma {:induction false} PairCountFormula(n: nat)
    ensures 2 * PairCount(n) == n * (n - 1)
  {
    if n > 0 {
      PairCountFormula(n - 1);
      assert n * (n - 1) == (n - 1) * (n - 2) + 2 * (n - 1);
    }
  }

  /** Each pair of children is examined once: at most one message for each
      pair. */
  lemma {:induction false} SpacingFromBound(t: Tables, kids: seq<string>, i: nat, acc: seq<Message>)
    requires i <= |kids|
    ensures SpacingFrom(t, kids, i, acc).Ok? ==>
      |SpacingFrom(t, kids, i, acc).value| <= |acc| + PairCount(|kids| - i)
    decreases |kids| - i
  {
    if i < |kids| {
      var acc1 := SpacingWith(t, kids, i, i + 1, acc);
      SpacingWithBound(t, kids, i, i + 1, acc);
      if acc1.Ok? {
        var r := SpacingFrom(t, kids, i + 1, acc1.value);
        assert SpacingFrom(t, kids, i, acc) == r;
        SpacingFromBound(t, kids, i + 1, acc1.value);
        var m := |kids| - (i + 1);
        assert r.Ok? ==> |r.value| <= |acc1.value| + PairCount(m);
        assert |kids| - i == m + 1;
        assert PairCount(m + 1) == m + PairCount(m);
      }
    }
  }

  /** So US13 adds at most n(n-1)/2 messages for the n children from `i` on. */
  lemma SpacingFromPairs(t: Tables, kids: seq<string>, i: nat, acc: seq<Message>)
    requires i <= |kids|
    ensures SpacingFrom(t, kids, i, acc).Ok? ==>
      2 * (|SpacingFrom(t, kids, i, acc).value| - |acc|) <= (|kids| - i) * (|kids| - i - 1)
  {
    SpacingFromBound(t, kids, i, acc);
    PairCountFormula(|kids| - i);
  }

  // ---------------------------------------------------------------------------
  // US14
  // ---------------------------------------------------------------------------

  /** `birthDayDict` counts each date as often as it occurs, and has a key
      for every date that occurs. */
  lemma {:induction false} TallyCounts(births: seq<Option<Date>>)
    ensures forall k :: k in Tally(births).counts ==> Tally(births).counts[k] == multiset(births)[k]
    ensures forall k :: k in births <==> k in Tally(births).counts
    decreases |births|
  {
    if births != [] {
      var init, last := births[..|births| - 1], births[|births| - 1];
      TallyCounts(init);
      assert births == init + [last];
      assert multiset(births) == multiset(init) + multiset{last};
      forall k
        ensures k in births <==> k in Tally(births).counts
      {
        assert k in births <==> k in init || k == last;
      }
    }
  }

  /** The loop over `birthDayDict` completes once the family name can be
      looked up, and adds only the US14 message for that name. */
  lemma {:induction false} CrowdedBirthsOnly(t: Tables, f: FamRec, keys: seq<Option<Date>>, counts: map<Option<Date>, nat>, name: string, acc: seq<Message>)
    requires forall i :: 0 <= i < |keys| ==> keys[i] in counts
    requires FamilyName(t, f) == Ok(name)
    ensures CrowdedBirths(t, f, keys, counts, acc).Ok?
    ensures forall m :: m in CrowdedBirths(t, f, keys, counts, acc).value[|acc|..] ==> m == TooManyMultipleBirths(name)
    decreases |keys|
  {
    if keys != [] {
      var acc1 := if counts[keys[0]] > 5 then acc + [TooManyMultipleBirths(name)] else acc;
      CrowdedBirthsOnly(t, f, keys[1..], counts, name, acc1);
      var r := CrowdedBirths(t, f, keys, counts, acc).value;
      assert r == CrowdedBirths(t, f, keys[1..], counts, acc1).value;
      forall m | m in r[|acc|..]
        ensures m == TooManyMultipleBirths(name)
      {
        var k :| |acc| <= k < |r| && r[k] == m;
        if k >= |acc1| {
          assert m in r[|acc1|..];
        } else {
          assert acc1[k] == m;
        }
      }
    }
  }

  /** The loop over `birthDayDict` adds a message exactly when some count is
      over five. */
  lemma {:induction false} CrowdedBirthsMeaning(t: Tables, f: FamRec, keys: seq<Option<Date>>, counts: map<Option<Date>, nat>, name: string, acc: seq<Message>)
    requires forall i :: 0 <= i < |keys| ==> keys[i] in counts
    requires FamilyName(t, f) == Ok(name)
    ensures CrowdedBirths(t, f, keys, counts, acc).Ok?
    ensures CrowdedBirths(t, f, keys, counts, acc).value != acc <==> exists i :: 0 <= i < |keys| && counts[keys[i]] > 5
    decreases |keys|
  {
    CrowdedBirthsOnly(t, f, keys, counts, name, acc);
    if keys != [] {
      var acc1 := if counts[keys[0]] > 5 then acc + [TooManyMultipleBirths(name)] else acc;
      CrowdedBirthsMeaning(t, f, keys[1..], counts, name, acc1);
      var r := CrowdedBirths(t, f, keys, counts, acc).value;
      assert r == CrowdedBirths(t, f, keys[1..], counts, acc1).value;
      assert acc <= acc1 <= r;
      if exists i :: 0 <= i < |keys[1..]| && counts[keys[1..][i]] > 5 {
        var i :| 0 <= i < |keys[1..]| && counts[keys[1..][i]] > 5;
        assert counts[keys[i + 1]] > 5;
      }
      if exists i :: 0 <= i < |keys| && counts[keys[i]] > 5 {
        var i :| 0 <= i < |keys| && counts[keys[i]] > 5;
        if i > 0 {
          assert counts[keys[1..][i - 1]] > 5;
        }
        assert |r| > |acc|;
      }
    }
  }

  /** Some date is counted more than five times exactly when some birth
      date occurs more than five times. */
  lemma CrowdedKeyIff(births: seq<Option<Date>>)
    ensures (exists d :: multiset(births)[d] > 5) <==> exists i :: 0 <= i < |Tally(births).keys| && Tally(births).counts[Tally(births).keys[i]] > 5
  {
    var dict := Tally(births);
    TallyCounts(births);
    if exists d :: multiset(births)[d] > 5 {
      var d :| multiset(births)[d] > 5;
      assert d in births;
      assert d in dict.keys;
      var i :| 0 <= i < |dict.keys| && dict.keys[i] == d;
      assert dict.counts[dict.keys[i]] > 5;
      assert Tally(births).counts[Tally(births).keys[i]] > 5;
    } else {
      forall i | 0 <= i < |dict.keys|
        ensures dict.counts[dict.keys[i]] <= 5
      {
        assert dict.keys[i] in dict.counts;
        assert multiset(births)[dict.keys[i]] <= 5;
      }
    }
  }

  /** US14 for a family whose children and family name can be looked up:
      it reports exactly when more than five of the children share a birth
      date (a missing one included), and then only its own message. */
  lemma TooManyBirthsIff(t: Tables, f: FamRec, name: string, acc: seq<Message>)
    requires BirthsOf(t, Sorted(f.chil), []).Ok?
    requires FamilyName(t, f) == Ok(name)
    ensures var births := BirthsOf(t, Sorted(f.chil), []).value;
      TooManyBirths(t, f, acc).Ok?
      && (TooManyBirths(t, f, acc).value != acc <==> exists d :: multiset(births)[d] > 5)
      && forall m :: m in TooManyBirths(t, f, acc).value[|acc|..] ==> m == TooManyMultipleBirths(name)
  {
    var births := BirthsOf(t, Sorted(f.chil), []).value;
    var dict := Tally(births);
    CrowdedBirthsOnly(t, f, dict.keys, dict.counts, name, acc);
    CrowdedBirthsMeaning(t, f, dict.keys, dict.counts, name, acc);
    CrowdedKeyIff(births);
  }

  // ---------------------------------------------------------------------------
  // Children and current spouse
  // ---------------------------------------------------------------------------

  /** `get_childrenID` collects exactly the children of the families it is
      given, after `kids`. */
  lemma {:induction false} ChildrenOfMembers(t: Tables, fams: seq<string>, kids: seq<string>, c: string)
    ensures ChildrenOf(t, fams, kids).Ok? ==>
      (c in ChildrenOf(t, fams, kids).value <==> c in kids || exists j :: 0 <= j < |fams| && fams[j] in t.fams && c in t.fams[fams[j]].chil)
    decreases |fams|
  {
    if fams != [] && Union(t, Some(fams[0])).Ok? {
      var f := t.fams[fams[0]];
      SortedMembers(f.chil);
      ChildrenOfMembers(t, fams[1..], kids + Sorted(f.chil), c);
      if ChildrenOf(t, fams, kids).Ok? {
        if exists j :: 0 <= j < |fams[1..]| && fams[1..][j] in t.fams && c in t.fams[fams[1..][j]].chil {
          var j :| 0 <= j < |fams[1..]| && fams[1..][j] in t.fams && c in t.fams[fams[1..][j]].chil;
          assert fams[j + 1] in t.fams && c in t.fams[fams[j + 1]].chil;
        }
        if exists j :: 0 <= j < |fams| && fams[j] in t.fams && c in t.fams[fams[j]].chil {
          var j :| 0 <= j < |fams| && fams[j] in t.fams && c in t.fams[fams[j]].chil;
          if j > 0 {
            assert fams[1..][j - 1] in t.fams && c in t.fams[fams[1..][j - 1]].chil;
          }
        }
      }
    }
  }

  /** `get_spouse` answers from the first family without a divorce: the
      wife for a man, the husband for anyone else. */
  lemma {:induction false} SpouseInFirstCurrent(t: Tables, p: IndiRec, fams: seq<string>, j: nat)
    requires j < |fams|
    requires forall l :: 0 <= l <= j ==> fams[l] in t.fams
    requires forall l :: 0 <= l < j ==> t.fams[fams[l]].div.Some?
    requires t.fams[fams[j]].div.None?
    ensures SpouseIn(t, p, fams) == Ok(if p.sex == Some("M") then t.fams[fams[j]].wife else t.fams[fams[j]].husb)
    decreases j
  {
    if j > 0 {
      SpouseInFirstCurrent(t, p, fams[1..], j - 1);
    }
  }

  /** With every family divorced there is no current spouse. */
  lemma {:induction false} SpouseInAllDivorced(t: Tables, p: IndiRec, fams: seq<string>)
    requires forall l :: 0 <= l < |fams| ==> fams[l] in t.fams && t.fams[fams[l]].div.Some?
    ensures SpouseIn(t, p, fams) == Ok(None)
    decreases |fams|
  {
    if fams != [] {
      SpouseInAllDivorced(t, p, fams[1..]);
    }
  }

  // ---------------------------------------------------------------------------
  // US19
  // ---------------------------------------------------------------------------

  /** The couple `c`, as (cousin, child), stands behind the message `m`:
      both are individuals, the cousin's current spouse is the child, and
      `m` names the child and then the cousin. */
  predicate Couple(t: Tables, c: (string, string), m: Message)
  {
    c.0 in t.inds && c.1 in t.inds
    && SpouseIn(t, t.inds[c.0], Sorted(t.inds[c.0].fams)) == Ok(Some(c.1))
    && m == MarriedToCousin(Show(t.inds[c.1].name), Show(t.inds[c.0].name))
  }

  /** Since the messages `m0` and the couples `c0`: one couple per message,
      each behind its message, and no couple recorded in both orders. */
  ghost predicate Reported(t: Tables, st: CousinState, m0: nat, c0: nat)
  {
    m0 <= |st.msgs| && c0 <= |st.couples| && |st.msgs| - m0 == |st.couples| - c0
    && (forall k :: c0 <= k < |st.couples| ==> Couple(t, st.couples[k], st.msgs[m0 + k - c0]))
    && forall k, l :: 0 <= k < l < |st.couples| ==> st.couples[l] != (st.couples[k].1, st.couples[k].0)
  }

  lemma {:induction false} CousinListReported(t: Tables, curr: string, cousins: seq<string>, st: CousinState, m0: nat, c0: nat)
    requires Reported(t, st, m0, c0)
    ensures CousinList(t, curr, cousins, st).Ok? ==> Reported(t, CousinList(t, curr, cousins, st).value, m0, c0)
    decreases |cousins|
  {
    if cousins != [] && Person(t, Some(cousins[0])).Ok? {
      var cousin := cousins[0];
      var other := t.inds[cousin];
      var spouse := SpouseIn(t, other, Sorted(other.fams));
      if spouse.Ok? {
        if spouse.value == Some(curr) && (curr, cousin) !in st.couples {
          if curr in t.inds {
            var st1 := CousinState(st.msgs + [MarriedToCousin(Show(t.inds[curr].name), Show(other.name))], st.couples + [(cousin, curr)]);
            assert Couple(t, (cousin, curr), st1.msgs[|st1.msgs| - 1]);
            assert Reported(t, st1, m0, c0);
            CousinListReported(t, curr, cousins[1..], st1, m0, c0);
          }
        } else {
          CousinListReported(t, curr, cousins[1..], st, m0, c0);
        }
      }
    }
  }

  lemma {:induction false} CousinAuntsReported(t: Tables, curr: string, aunts: seq<string>, st: CousinState, m0: nat, c0: nat)
    requires Reported(t, st, m0, c0)
    ensures CousinAunts(t, curr, aunts, st).Ok? ==> Reported(t, CousinAunts(t, curr, aunts, st).value, m0, c0)
    decreases |aunts|
  {
    if aunts != [] && ChildrenIds(t, aunts[0]).Ok? {
      var cousins := ChildrenIds(t, aunts[0]).value;
      CousinListReported(t, curr, cousins, st, m0, c0);
      var st1 := CousinList(t, curr, cousins, st);
      if st1.Ok? {
        CousinAuntsReported(t, curr, aunts[1..], st1.value, m0, c0);
      }
    }
  }

  lemma {:induction false} CousinChildrenReported(t: Tables, f: FamRec, kids: seq<string>, st: CousinState, m0: nat, c0: nat)
    requires Reported(t, st, m0, c0)
    ensures CousinChildren(t, f, kids, st).Ok? ==> Reported(t, CousinChildren(t, f, kids, st).value, m0, c0)
    decreases |kids|
  {
    if kids != [] {
      var st1 := CousinSide(t, f.wife, kids[0], st);
      if st1.Ok? {
        CousinSideReported(t, f.wife, kids[0], st, m0, c0);
        var st2 := CousinSide(t, f.husb, kids[0], st1.value);
        if st2.Ok? {
          CousinSideReported(t, f.husb, kids[0], st1.value, m0, c0);
          CousinChildrenReported(t, f, kids[1..], st2.value, m0, c0);
        }
      }
    }
  }

  lemma CousinSideReported(t: Tables, parent: Option<string>, curr: string, st: CousinState, m0: nat, c0: nat)
    requires Reported(t, st, m0, c0)
    ensures CousinSide(t, parent, curr, st).Ok? ==> Reported(t, CousinSide(t, parent, curr, st).value, m0, c0)
  {
    if Person(t, parent).Ok? && t.inds[parent.value].famc.Some? && Union(t, t.inds[parent.value].famc).Ok? {
      CousinAuntsReported(t, curr, Sorted(t.fams[t.inds[parent.value].famc.value].chil), st, m0, c0);
    }
  }

  lemma {:induction false} NoMarriageToCousinReported(t: Tables, xs: seq<(string, FamRec)>, st: CousinState, m0: nat, c0: nat)
    requires Reported(t, st, m0, c0)
    ensures NoMarriageToCousin(t, xs, st).Ok? ==> Reported(t, NoMarriageToCousin(t, xs, st).value, m0, c0)
    decreases |xs|
  {
    if xs != [] {
      var st1 := CousinChildren(t, xs[0].1, Sorted(xs[0].1.chil), st);
      CousinChildrenReported(t, xs[0].1, Sorted(xs[0].1.chil), st, m0, c0);
      if st1.Ok? {
        NoMarriageToCousinReported(t, xs[1..], st1.value, m0, c0);
      }
    }
  }

  /** US19: every message it adds stands for a couple, a child and the
      cousin whose current spouse the child is; a couple already reported
      from the other side is not reported again. */
  lemma CousinMessagesMeaning(t: Tables, acc: seq<Message>)
    ensures NoMarriageToCousin(t, Households(t), CousinState(acc, [])).Ok? ==>
      Reported(t, NoMarriageToCousin(t, Households(t), CousinState(acc, [])).value, |acc|, 0)
  {
    NoMarriageToCousinReported(t, Households(t), CousinState(acc, []), |acc|, 0);
  }

  // ---------------------------------------------------------------------------
  // US23
  // ---------------------------------------------------------------------------

  /** The name and birth date US23 compares. */
  function NameKey(p: IndiRec): (Option<string>, Option<Date>)
  {
    (p.name, p.birt)
  }

  /** Every key of `xs` is new: not in `seen` and not repeated. */
  predicate NewKeys(xs: seq<(string, IndiRec)>, seen: seq<(Option<string>, Option<Date>)>)
  {
    forall i :: 0 <= i < |xs| ==> NameKey(xs[i].1) !in seen && forall j :: 0 <= j < i ==> NameKey(xs[j].1) != NameKey(xs[i].1)
  }

  /** US23 reports nothing exactly when no two individuals share a name and
      a birth date. */
  lemma {:induction false} UniqueNamesIff(xs: seq<(string, IndiRec)>, seen: seq<(Option<string>, Option<Date>)>, acc: seq<Message>)
    ensures UniqueNamesAndBdays(xs, seen, acc) == acc <==> NewKeys(xs, seen)
    decreases |xs|
  {
    if xs != [] {
      var key := NameKey(xs[0].1);
      if key in seen {
        var acc1 := acc + [DuplicateNameAndBirthday(Show(xs[0].1.name), xs[0].1.birt)];
        assert |UniqueNamesAndBdays(xs[1..], seen, acc1)| > |acc|;
      } else {
        UniqueNamesIff(xs[1..], seen + [key], acc);
        if NewKeys(xs[1..], seen + [key]) {
          forall i | 0 <= i < |xs|
            ensures NameKey(xs[i].1) !in seen && forall j :: 0 <= j < i ==> NameKey(xs[j].1) != NameKey(xs[i].1)
          {
            if i > 0 {
              assert xs[i] == xs[1..][i - 1];
              forall j | 0 <= j < i
                ensures NameKey(xs[j].1) != NameKey(xs[i].1)
              {
                if j > 0 {
                  assert xs[j] == xs[1..][j - 1];
                }
              }
            }
          }
        }
        if NewKeys(xs, seen) {
          forall i | 0 <= i < |xs[1..]|
            ensures NameKey(xs[1..][i].1) !in seen + [key]
              && forall j :: 0 <= j < i ==> NameKey(xs[1..][j].1) != NameKey(xs[1..][i].1)
          {
            assert xs[1..][i] == xs[i + 1];
            forall j | 0 <= j < i
              ensures NameKey(xs[1..][j].1) != NameKey(xs[1..][i].1)
            {
              assert xs[1..][j] == xs[j + 1];
            }
          }
        }
      }
    }
  }

  // ---------------------------------------------------------------------------
  // From the analysis to the rules
  // ---------------------------------------------------------------------------

  /** The US07 message for an individual with an age: one for an age of
      150 or more. */
  function OldAge(p: IndiRec): seq<Message>
    requires p.age.Some?
  {
    if p.age.value >= 150 then [TooOld(Show(p.name), p.age.value)] else []
  }

  /** The US07 messages for the individuals `xs`, each of whom has an age,
      in order. */
  function OldAges(xs: seq<(string, IndiRec)>): seq<Message>
    requires forall i :: 0 <= i < |xs| ==> xs[i].1.age.Some?
  {
    if xs == [] then [] else OldAge(xs[0].1) + OldAges(xs[1..])
  }

  lemma US07Step(xs: seq<(string, IndiRec)>, acc: seq<Message>)
    requires xs != [] && xs[0].1.age.Some?
    ensures US07(xs, acc) == US07(xs[1..], acc + OldAge(xs[0].1))
  {
    var p := xs[0].1;
    if p.age.value < 150 {
      assert acc + OldAge(p) == acc;
    }
    assert NormalAge(p, acc) == Ok(acc + OldAge(p));
  }

  lemma {:induction false} US07Exact(xs: seq<(string, IndiRec)>, acc: seq<Message>)
    requires forall i :: 0 <= i < |xs| ==> xs[i].1.age.Some?
    ensures US07(xs, acc) == Ok(acc + OldAges(xs))
    decreases |xs|
  {
    if xs == [] {
      assert acc + OldAges(xs) == acc;
    } else {
      var head, rest := OldAge(xs[0].1), OldAges(xs[1..]);
      assert US07(xs, acc) == Ok(acc + head + rest) by {
        US07Step(xs, acc);
        US07Exact(xs[1..], acc + head);
      }
      assert acc + head + rest == acc + OldAges(xs) by {
        assert OldAges(xs) == head + rest;
      }
    }
  }

  lemma {:induction false} US03NeverCrashes(xs: seq<(string, IndiRec)>, acc: seq<Message>)
    requires forall i :: 0 <= i < |xs| ==> xs[i].1.birt.Some?
    ensures US03(xs, acc).Ok?
    decreases |xs|
  {
    if xs != [] {
      US03NeverCrashes(xs[1..], BirthBeforeDeath(xs[0].1, acc).value);
    }
  }

  /** After a successful analysis every individual has a birth date and an
      age, so US03 and US07 cannot raise, and US07 reports exactly the ages
      of 150 or more. */
  lemma AnalyzedPeople(lines: seq<Assembly.Line>, today: Date, acc: seq<Message>)
    ensures Assembly.Analyze(lines, today).Ok? ==>
      var people := People(Assembly.Analyze(lines, today).value.0);
      (forall i :: 0 <= i < |people| ==> people[i].1.age.Some? && people[i].1.birt.Some?)
      && US03(people, acc).Ok?
      && US07(people, acc) == Ok(acc + OldAges(people))
  {
    AssemblyFacts.AnalyzeAges(lines, today);
    if Assembly.Analyze(lines, today).Ok? {
      var t := Assembly.Analyze(lines, today).value.0;
      var people := People(t);
      assert forall i :: 0 <= i < |people| ==> people[i].1 == t.inds[people[i].0];
      US03NeverCrashes(people, acc);
      US07Exact(people, acc);
    }
  }
}

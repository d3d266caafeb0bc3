/** For each check of `Rules` that looks at one record at a time: when it
    raises, which exception, and otherwise which messages it adds, each
    exactly when the condition the user story names holds. Day differences
    are restated as the calendar order `Before`. */
module RuleTriggers {
  import opened Wrappers
  import opened Strings
  import opened Dates
  import opened Messages
  import opened Records
  import opened Rules

  /** The husband's name as a message shows it. */
  function HusbandName(t: Tables, f: FamRec): string
    requires Spouses(t, f).Ok?
  {
    Show(t.inds[f.husb.value].name)
  }

  /** The wife's name as a message shows it. */
  function WifeName(t: Tables, f: FamRec): string
    requires Spouses(t, f).Ok?
  {
    Show(t.inds[f.wife.value].name)
  }

  function Indicator(b: bool): nat
  {
    if b then 1 else 0
  }

  /** `added` holds `a` exactly when `pa`, `b` exactly when `pb`, and
      nothing else, each at most once. */
  predicate PairReport<M(==)>(added: seq<M>, a: M, b: M, pa: bool, pb: bool)
  {
    (a in added <==> pa) && (b in added <==> pb)
    && (forall m :: m in added ==> m == a || m == b)
    && |added| == Indicator(pa) + Indicator(pb)
  }

  /** Two distinct messages appended each under its own condition make a
      `PairReport`. */
  lemma PairAdded<M>(added: seq<M>, a: M, b: M, pa: bool, pb: bool)
    requires a != b
    requires added == (if pa then [a] else []) + (if pb then [b] else [])
    ensures PairReport(added, a, b, pa, pb)
  {
  }

  // ---------------------------------------------------------------------------
  // US01
  // ---------------------------------------------------------------------------

  /** US01 for an individual: a message for a birth after today and one for
      a death after today, and nothing else; no birth date raises. */
  lemma FutureDatesOfPerson(today: Date, p: IndiRec, acc: seq<Message>)
    ensures DatesBeforeCurrPerson(today, p, acc).Ok? <==> p.birt.Some?
    ensures DatesBeforeCurrPerson(today, p, acc).Err? ==> DatesBeforeCurrPerson(today, p, acc).error == TypeError
    ensures var r := DatesBeforeCurrPerson(today, p, acc);
      r.Ok? ==>
        PairReport(r.value[|acc|..], BirthInFuture(Show(p.name)), DeathInFuture(Show(p.name)),
                   Before(today, p.birt.value), p.deat.Some? && Before(today, p.deat.value))
  {
    if p.birt.Some? {
      var a, b := BirthInFuture(Show(p.name)), DeathInFuture(Show(p.name));
      var early, lateDeath := Before(today, p.birt.value), p.deat.Some? && Before(today, p.deat.value);
      assert DatesBeforeCurrPerson(today, p, acc).value[|acc|..] == (if early then [a] else []) + (if lateDeath then [b] else []);
      PairAdded(DatesBeforeCurrPerson(today, p, acc).value[|acc|..], a, b, early, lateDeath);
    }
  }

  /** US01 for a family: no marriage date raises `TypeError`; the spouses
      are looked up only for a message, a missing one raising `KeyError`. */
  lemma FutureDatesOfFamilyRaises(t: Tables, today: Date, f: FamRec, acc: seq<Message>)
    ensures DatesBeforeCurrFamily(t, today, f, acc).Ok? <==>
              f.marr.Some? && ((Before(today, f.marr.value) || (f.div.Some? && Before(today, f.div.value))) ==> Spouses(t, f).Ok?)
    ensures var r := DatesBeforeCurrFamily(t, today, f, acc);
      r.Err? ==> (r.error == TypeError <==> f.marr.None?) && (r.error == TypeError || r.error == KeyError)
  {
  }

  lemma FutureDatesOfFamilyAdded(t: Tables, today: Date, f: FamRec, acc: seq<Message>)
    requires DatesBeforeCurrFamily(t, today, f, acc).Ok?
    ensures var late, lateDivorce := Before(today, f.marr.value), f.div.Some? && Before(today, f.div.value);
      (late || lateDivorce ==> Spouses(t, f).Ok?)
      && DatesBeforeCurrFamily(t, today, f, acc).value
           == acc + (if late then [MarriageInFuture(HusbandName(t, f), WifeName(t, f))] else [])
                  + (if lateDivorce then [DivorceInFuture(HusbandName(t, f), WifeName(t, f))] else [])
  {
  }

  /** US01 for a family: a message for a marriage after today and one for a
      divorce after today, each naming both spouses, and nothing else; the
      spouses are then looked up. */
  lemma FutureDatesOfFamily(t: Tables, today: Date, f: FamRec, acc: seq<Message>)
    ensures var r := DatesBeforeCurrFamily(t, today, f, acc);
      r.Ok? ==>
        var late, lateDivorce := Before(today, f.marr.value), f.div.Some? && Before(today, f.div.value);
        if late || lateDivorce then
          Spouses(t, f).Ok?
          && PairReport(r.value[|acc|..], MarriageInFuture(HusbandName(t, f), WifeName(t, f)),
                        DivorceInFuture(HusbandName(t, f), WifeName(t, f)), late, lateDivorce)
        else r.value[|acc|..] == []
  {
    var r := DatesBeforeCurrFamily(t, today, f, acc);
    if r.Ok? {
      var late, lateDivorce := Before(today, f.marr.value), f.div.Some? && Before(today, f.div.value);
      FutureDatesOfFamilyAdded(t, today, f, acc);
      if late || lateDivorce {
        var a, b := MarriageInFuture(HusbandName(t, f), WifeName(t, f)), DivorceInFuture(HusbandName(t, f), WifeName(t, f));
        assert r.value[|acc|..] == (if late then [a] else []) + (if lateDivorce then [b] else []);
        PairAdded(r.value[|acc|..], a, b, late, lateDivorce);
      } else {
        assert r.value[|acc|..] == [];
      }
    }
  }

  // ---------------------------------------------------------------------------
  // US02
  // ---------------------------------------------------------------------------

  /** US02: a message exactly when a spouse was born after the wedding,
      naming both when both were and otherwise the one who was. Missing
      spouses raise `KeyError`, missing dates `TypeError`. */
  lemma BornAfterWeddingIff(t: Tables, f: FamRec, acc: seq<Message>)
    ensures IndiBirthBeforeMarriage(t, f, acc).Ok? <==>
              Spouses(t, f).Ok? && t.inds[f.husb.value].birt.Some? && f.marr.Some? && t.inds[f.wife.value].birt.Some?
    ensures var r := IndiBirthBeforeMarriage(t, f, acc);
      r.Err? ==> (r.error == KeyError <==> !Spouses(t, f).Ok?) && (r.error == KeyError || r.error == TypeError)
    ensures var r := IndiBirthBeforeMarriage(t, f, acc);
      r.Ok? ==>
        var added := r.value[|acc|..];
        var h, w := t.inds[f.husb.value], t.inds[f.wife.value];
        var late, lateWife := Before(f.marr.value, h.birt.value), Before(f.marr.value, w.birt.value);
        |added| == Indicator(late || lateWife)
        && (late && lateWife ==> added == [BothBornAfterMarriage(Show(h.name), Show(w.name))])
        && (late && !lateWife ==> added == [BornAfterMarriage(Show(h.name))])
        && (!late && lateWife ==> added == [BornAfterMarriage(Show(w.name))])
  {
  }

  // ---------------------------------------------------------------------------
  // US05 and US06
  // ---------------------------------------------------------------------------

  /** US05 and US06 for a family with a dead spouse: one message exactly when
      the death (the husband's if he is dead, else the wife's) is strictly
      before the marriage or strictly before the divorce; no marriage date
      raises. */
  lemma DeathBeforeWeddingIff(husband: IndiRec, wife: IndiRec, f: FamRec, acc: seq<Message>)
    requires husband.deat.Some? || wife.deat.Some?
    ensures DiedBeforeWedding(husband, wife, f, acc).Ok? <==> f.marr.Some?
    ensures DiedBeforeWedding(husband, wife, f, acc).Err? ==> DiedBeforeWedding(husband, wife, f, acc).error == TypeError
    ensures f.marr.Some? ==>
      var death := if husband.deat.Some? then husband.deat.value else wife.deat.value;
      DiedBeforeWedding(husband, wife, f, acc)
        == Ok(if Before(death, f.marr.value) || (f.div.Some? && Before(death, f.div.value))
              then acc + [MarriedOrDivorcedAfterDeath(Show(husband.name), Show(wife.name))] else acc)
  {
    var death := if husband.deat.Some? then husband.deat.value else wife.deat.value;
    if f.marr.Some? {
      DaysBetweenSign(death, f.marr.value);
      if f.div.Some? {
        DaysBetweenSign(death, f.div.value);
      }
    }
  }

  // ---------------------------------------------------------------------------
  // US09
  // ---------------------------------------------------------------------------

  /** US09 for a child: no family of origin, no message; a missing family
      or parent raises `KeyError`, a father's death with no birth date
      `AttributeError`, a mother's `TypeError`. */
  lemma ParentsDeathRaises(t: Tables, p: IndiRec, acc: seq<Message>)
    ensures p.famc.None? ==> BirthBeforeDeathOfParents(t, p, acc) == Ok(acc)
    ensures p.famc.Some? ==>
      (BirthBeforeDeathOfParents(t, p, acc).Ok? <==>
         Union(t, p.famc).Ok? && Spouses(t, t.fams[p.famc.value]).Ok?
         && (t.inds[t.fams[p.famc.value].husb.value].deat.Some? || t.inds[t.fams[p.famc.value].wife.value].deat.Some?
             ==> p.birt.Some?))
    ensures var r := BirthBeforeDeathOfParents(t, p, acc);
      r.Err? ==>
        (r.error == KeyError <==> !(Union(t, p.famc).Ok? && Spouses(t, t.fams[p.famc.value]).Ok?))
        && (r.error == AttributeError <==>
              Union(t, p.famc).Ok? && Spouses(t, t.fams[p.famc.value]).Ok? && t.inds[t.fams[p.famc.value].husb.value].deat.Some?)
        && (r.error == KeyError || r.error == AttributeError || r.error == TypeError)
  {
  }

  /** The father's death nine or more calendar months before the birth. */
  predicate FatherLate(p: IndiRec, father: IndiRec)
  {
    father.deat.Some? && p.birt.Some? && MonthsBetween(p.birt.value, father.deat.value) >= 9
  }

  /** The mother's death on or before the birth day. */
  predicate MotherLate(p: IndiRec, mother: IndiRec)
  {
    mother.deat.Some? && p.birt.Some? && !Before(p.birt.value, mother.deat.value)
  }

  lemma ParentsDeathAdded(t: Tables, p: IndiRec, acc: seq<Message>)
    requires p.famc.Some? && BirthBeforeDeathOfParents(t, p, acc).Ok?
    ensures var f := t.fams[p.famc.value];
      var father, mother := t.inds[f.husb.value], t.inds[f.wife.value];
      BirthBeforeDeathOfParents(t, p, acc).value
        == acc + (if FatherLate(p, father) then [BornAfterFatherDied(Show(p.name), MonthsBetween(p.birt.value, father.deat.value))] else [])
          + (if MotherLate(p, mother) then [BornAfterMotherDied(Show(p.name))] else [])
  {
    var f := t.fams[p.famc.value];
    var mother := t.inds[f.wife.value];
    if mother.deat.Some? && p.birt.Some? {
      DaysBetweenSign(p.birt.value, mother.deat.value);
    }
  }

  /** The months from a birth to the father's death, when both are known. */
  function FatherMonths(p: IndiRec, father: IndiRec): (months: int)
    ensures father.deat.Some? && p.birt.Some? ==> months == MonthsBetween(p.birt.value, father.deat.value)
  {
    if father.deat.Some? && p.birt.Some? then MonthsBetween(p.birt.value, father.deat.value) else 0
  }

  /** US09 for a child in a family: a message when the father died nine or
      more calendar months before the birth, carrying that number, and one
      when the mother died on or before the birth day; nothing else. */
  lemma ParentsDeathIff(t: Tables, p: IndiRec, acc: seq<Message>)
    ensures var r := BirthBeforeDeathOfParents(t, p, acc);
      r.Ok? && p.famc.Some? ==>
        var f := t.fams[p.famc.value];
        var father, mother := t.inds[f.husb.value], t.inds[f.wife.value];
        PairReport(r.value[|acc|..], BornAfterFatherDied(Show(p.name), FatherMonths(p, father)), BornAfterMotherDied(Show(p.name)),
                   FatherLate(p, father), MotherLate(p, mother))
  {
    var r := BirthBeforeDeathOfParents(t, p, acc);
    if r.Ok? && p.famc.Some? {
      var f := t.fams[p.famc.value];
      var father, mother := t.inds[f.husb.value], t.inds[f.wife.value];
      var a, b := BornAfterFatherDied(Show(p.name), FatherMonths(p, father)), BornAfterMotherDied(Show(p.name));
      ParentsDeathAdded(t, p, acc);
      assert r.value[|acc|..] == (if FatherLate(p, father) then [a] else []) + (if MotherLate(p, mother) then [b] else []);
      PairAdded(r.value[|acc|..], a, b, FatherLate(p, father), MotherLate(p, mother));
    }
  }

  // ---------------------------------------------------------------------------
  // US12
  // ---------------------------------------------------------------------------

  /** US12 for a child in a family: a message when the father is more than
      80 years older, one when the mother is more than 60 years older, and
      nothing else. A missing family or parent raises `KeyError`, a missing
      age `TypeError`; the father is examined before the mother is looked
      up. */
  lemma ParentsTooOldRaises(t: Tables, p: IndiRec, acc: seq<Message>)
    ensures p.famc.None? ==> ParentsTooOld(t, p, acc) == Ok(acc)
    ensures p.famc.Some? ==>
      (ParentsTooOld(t, p, acc).Ok? <==>
         Union(t, p.famc).Ok? && Spouses(t, t.fams[p.famc.value]).Ok? && p.age.Some?
         && t.inds[t.fams[p.famc.value].husb.value].age.Some? && t.inds[t.fams[p.famc.value].wife.value].age.Some?)
    ensures var r := ParentsTooOld(t, p, acc);
      r.Err? ==> r.error == KeyError || r.error == TypeError
  {
  }

  /** US12: what the messages for a child say. */
  lemma ParentsTooOldIff(t: Tables, p: IndiRec, acc: seq<Message>)
    ensures var r := ParentsTooOld(t, p, acc);
      r.Ok? && p.famc.Some? ==>
        var f := t.fams[p.famc.value];
        var father, mother := t.inds[f.husb.value], t.inds[f.wife.value];
        PairReport(r.value[|acc|..], FatherTooOld(Show(father.name), Show(p.name)), MotherTooOld(Show(mother.name), Show(p.name)),
                   father.age.value - p.age.value > 80, mother.age.value - p.age.value > 60)
  {
    var r := ParentsTooOld(t, p, acc);
    if r.Ok? && p.famc.Some? {
      var f := t.fams[p.famc.value];
      var father, mother := t.inds[f.husb.value], t.inds[f.wife.value];
      var a, b := FatherTooOld(Show(father.name), Show(p.name)), MotherTooOld(Show(mother.name), Show(p.name));
      var oldFather, oldMother := father.age.value - p.age.value > 80, mother.age.value - p.age.value > 60;
      assert r.value[|acc|..] == (if oldFather then [a] else []) + (if oldMother then [b] else []);
      PairAdded(r.value[|acc|..], a, b, oldFather, oldMother);
    }
  }

  // ---------------------------------------------------------------------------
  // US15
  // ---------------------------------------------------------------------------

  /** US15: one message, naming the family, exactly when it has fifteen
      children or more; only then is the family name taken. */
  lemma TooManySiblingsIff(t: Tables, f: FamRec, acc: seq<Message>)
    ensures |f.chil| < 15 ==> TooManySiblingsOf(t, f, acc) == Ok(acc)
    ensures |f.chil| >= 15 ==>
      (TooManySiblingsOf(t, f, acc).Ok? <==> FamilyName(t, f).Ok?)
      && (TooManySiblingsOf(t, f, acc).Ok? ==> TooManySiblingsOf(t, f, acc).value == acc + [TooManySiblings(FamilyName(t, f).value)])
      && (TooManySiblingsOf(t, f, acc).Err? ==> TooManySiblingsOf(t, f, acc).error == FamilyName(t, f).error)
  {
  }

  // ---------------------------------------------------------------------------
  // US21
  // ---------------------------------------------------------------------------

  /** US21 raises exactly when the family name or a spouse cannot be looked
      up. */
  lemma GenderRoleRaises(t: Tables, f: FamRec, acc: seq<Message>)
    ensures CorrectGenderRole(t, f, acc).Ok? <==> FamilyName(t, f).Ok? && Spouses(t, f).Ok?
    ensures var r := CorrectGenderRole(t, f, acc);
      r.Err? ==> r.error == KeyError || r.error == IndexError
  {
  }

  /** US21: a message when the husband is recorded female and one when the
      wife is recorded male, both naming the family by the husband's last
      name without slashes; nothing else. */
  lemma GenderRoleIff(t: Tables, f: FamRec, acc: seq<Message>)
    ensures var r := CorrectGenderRole(t, f, acc);
      r.Ok? ==>
        var family := StripSlashes(FamilyName(t, f).value);
        var h, w := t.inds[f.husb.value], t.inds[f.wife.value];
        PairReport(r.value[|acc|..], FemaleHusband(family, Show(h.name)), MaleWife(family, Show(w.name)),
                   h.sex == Some("F"), w.sex == Some("M"))
  {
    var r := CorrectGenderRole(t, f, acc);
    if r.Ok? {
      var family := StripSlashes(FamilyName(t, f).value);
      var h, w := t.inds[f.husb.value], t.inds[f.wife.value];
      var a, b := FemaleHusband(family, Show(h.name)), MaleWife(family, Show(w.name));
      assert r.value[|acc|..] == (if h.sex == Some("F") then [a] else []) + (if w.sex == Some("M") then [b] else []);
      PairAdded(r.value[|acc|..], a, b, h.sex == Some("F"), w.sex == Some("M"));
    }
  }
}

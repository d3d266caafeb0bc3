/** `CheckForErrors` of GedcomProject.py: the object that runs the user-story
    checks over the analyzer's two dicts, appending each message to its
    `all_errors` list. Every check is a method whose loops are proved to
    compute what the matching function of `Rules` says: the same messages in
    the same order, or the same exception. */
module Checker {
  import opened Wrappers
  import opened Strings
  import opened Dates
  import opened Messages
  import opened Records
  import Rules

  /** A check that returned `r` and left the messages `now` did what the
      outcome `s` says: the same exception, or exactly these messages. */
  predicate Agrees(r: Result<(), Crash>, s: Rules.Outcome, now: seq<Message>)
  {
    (r.Ok? <==> s.Ok?) && (r.Err? ==> r.error == s.error) && (r.Ok? ==> now == s.value)
  }

  class CheckForErrors {
    /** `self.individuals` and `self.family`, which no check changes. */
    const tables: Tables
    /** `datetime.datetime.now().date()`. */
    const today: Date
    var allErrors: seq<Message>

    /** The fields of `__init__`; `RunAll` runs the checks it calls. */
    constructor(t: Tables, now: Date, errors: seq<Message>)
      ensures tables == t && today == now && allErrors == errors
    {
      tables, today, allErrors := t, now, errors;
    }

    /** US01 for one family: its marriage and its divorce. */
    method CheckFamilyDates(fam: FamRec) returns (r: Result<(), Crash>)
      modifies this
      ensures Agrees(r, Rules.DatesBeforeCurrFamily(tables, today, fam, old(allErrors)), allErrors)
    {
      var marr :- Compared(fam.marr);
      if Before(today, marr) {
        var husband :- Person(tables, fam.husb);
        var wife :- Person(tables, fam.wife);
        allErrors := allErrors + [MarriageInFuture(Show(husband.name), Show(wife.name))];
      }
      if fam.div.Some? && Before(today, fam.div.value) {
        var husband :- Person(tables, fam.husb);
        var wife :- Person(tables, fam.wife);
        allErrors := allErrors + [DivorceInFuture(Show(husband.name), Show(wife.name))];
      }
      r := Ok(());
    }

    /** US01 for one individual: their birth and their death. */
    method CheckPersonDates(indi: IndiRec) returns (r: Result<(), Crash>)
      modifies this
      ensures Agrees(r, Rules.DatesBeforeCurrPerson(today, indi, old(allErrors)), allErrors)
    {
      var birthday :- Compared(indi.birt);
      if Before(today, birthday) {
        allErrors := allErrors + [BirthInFuture(Show(indi.name))];
      }
      if indi.deat.Some? && Before(today, indi.deat.value) {
        allErrors := allErrors + [DeathInFuture(Show(indi.name))];
      }
      r := Ok(());
    }

    /** US01: marriages, divorces, births and deaths after today. */
    method DatesBeforeCurr() returns (r: Result<(), Crash>)
      modifies this
      ensures Agrees(r, Rules.US01(tables, today, old(allErrors)), allErrors)
    {
      var families := Rules.Households(tables);
      var i := 0;
      while i < |families|
        invariant i <= |families|
        invariant Rules.US01Families(tables, today, families[i..], allErrors)
               == Rules.US01Families(tables, today, families, old(allErrors))
      {
        assert families[i..][0] == families[i] && families[i..][1..] == families[i + 1..];
        var u :- CheckFamilyDates(families[i].1);
        i := i + 1;
      }
      assert families[i..] == [];
      ghost var afterFamilies := allErrors;
      var people := Rules.People(tables);
      i := 0;
      while i < |people|
        invariant i <= |people|
        invariant Rules.US01People(today, people[i..], allErrors)
               == Rules.US01People(today, people, afterFamilies)
      {
        assert people[i..][0] == people[i] && people[i..][1..] == people[i + 1..];
        var u :- CheckPersonDates(people[i].1);
        i := i + 1;
      }
      assert people[i..] == [];
      r := Ok(());
    }

    /** US03: deaths before births. */
    method BirthBeforeDeath() returns (r: Result<(), Crash>)
      modifies this
      ensures Agrees(r, Rules.US03(Rules.People(tables), old(allErrors)), allErrors)
    {
      var people := Rules.People(tables);
      var i := 0;
      while i < |people|
        invariant i <= |people|
        invariant Rules.US03(people[i..], allErrors)
               == Rules.US03(people, old(allErrors))
      {
        assert people[i..][0] == people[i] && people[i..][1..] == people[i + 1..];
        var person := people[i].1;
        if person.deat.Some? {
          var birt :- Compared(person.birt);
          if DaysBetween(person.deat.value, birt) < 0 {
            allErrors := allErrors + [DeathBeforeBirth(Show(person.name))];
          }
        }
        i := i + 1;
      }
      assert people[i..] == [];
      r := Ok(());
    }

    /** US02: spouses born after their wedding. */
    method IndiBirthBeforeMarriage() returns (r: Result<(), Crash>)
      modifies this
      ensures Agrees(r, Rules.US02(tables, Rules.Households(tables), old(allErrors)), allErrors)
    {
      var families := Rules.Households(tables);
      var i := 0;
      while i < |families|
        invariant i <= |families|
        invariant Rules.US02(tables, families[i..], allErrors)
               == Rules.US02(tables, families, old(allErrors))
      {
        assert families[i..][0] == families[i] && families[i..][1..] == families[i + 1..];
        var fam := families[i].1;
        var husband :- Person(tables, fam.husb);
        var wife :- Person(tables, fam.wife);
        var birthHusb :- Compared(husband.birt);
        var marrDate :- Compared(fam.marr);
        var birthWife :- Compared(wife.birt);
        if Before(marrDate, birthHusb) && Before(marrDate, birthWife) {
          allErrors := allErrors + [BothBornAfterMarriage(Show(husband.name), Show(wife.name))];
        } else if Before(marrDate, birthHusb) {
          allErrors := allErrors + [BornAfterMarriage(Show(husband.name))];
        } else if Before(marrDate, birthWife) {
          allErrors := allErrors + [BornAfterMarriage(Show(wife.name))];
        }
        i := i + 1;
      }
      assert families[i..] == [];
      r := Ok(());
    }

    /** US04: divorces before marriages. */
    method MarrBeforeDiv() returns (r: Result<(), Crash>)
      modifies this
      ensures Agrees(r, Rules.US04(tables, Rules.Households(tables), old(allErrors)), allErrors)
    {
      var families := Rules.Households(tables);
      var i := 0;
      while i < |families|
        invariant i <= |families|
        invariant Rules.US04(tables, families[i..], allErrors)
               == Rules.US04(tables, families, old(allErrors))
      {
        assert families[i..][0] == families[i] && families[i..][1..] == families[i + 1..];
        var fam := families[i].1;
        if fam.div.Some? {
          var marr :- Compared(fam.marr);
          if DaysBetween(fam.div.value, marr) < 0 {
            var husband :- Person(tables, fam.husb);
            var wife :- Person(tables, fam.wife);
            allErrors := allErrors + [DivorceBeforeMarriage(Show(husband.name), Show(wife.name))];
          }
        }
        i := i + 1;
      }
      assert families[i..] == [];
      r := Ok(());
    }

    /** US05 and US06: marriages or divorces after a spouse's death. The loop
        stops at the first family whose spouses are both alive. */
    method MarrDivBeforeDeath() returns (r: Result<(), Crash>)
      modifies this
      ensures Agrees(r, Rules.US05(tables, old(allErrors)), allErrors)
    {
      var families := Rules.Households(tables);
      var i := 0;
      while i < |families|
        invariant i <= |families|
        invariant Rules.MarrDivBeforeDeath(tables, families[i..], allErrors)
               == Rules.MarrDivBeforeDeath(tables, families, old(allErrors))
      {
        assert families[i..][0] == families[i] && families[i..][1..] == families[i + 1..];
        var fam := families[i].1;
        var husband :- Person(tables, fam.husb);
        var wife :- Person(tables, fam.wife);
        if husband.deat.None? && wife.deat.None? {
          break;
        }
        var checkHusbM, checkHusbD, checkWifeD, checkWifeM := 1, 1, 1, 1;
        var marr :- Compared(fam.marr);
        if husband.deat.Some? {
          checkHusbM := DaysBetween(husband.deat.value, marr);
          if fam.div.Some? {
            checkHusbD := DaysBetween(husband.deat.value, fam.div.value);
          }
        } else {
          checkWifeM := DaysBetween(wife.deat.value, marr);
          if fam.div.Some? {
            checkWifeD := DaysBetween(wife.deat.value, fam.div.value);
          }
        }
        if checkHusbM < 0 || checkWifeM < 0 || checkHusbD < 0 || checkWifeD < 0 {
          allErrors := allErrors + [MarriedOrDivorcedAfterDeath(Show(husband.name), Show(wife.name))];
        }
        i := i + 1;
      }
      r := Ok(());
    }

    /** US07: ages of 150 or more. */
    method NormalAge() returns (r: Result<(), Crash>)
      modifies this
      ensures Agrees(r, Rules.US07(Rules.People(tables), old(allErrors)), allErrors)
    {
      var people := Rules.People(tables);
      var i := 0;
      while i < |people|
        invariant i <= |people|
        invariant Rules.US07(people[i..], allErrors)
               == Rules.US07(people, old(allErrors))
      {
        assert people[i..][0] == people[i] && people[i..][1..] == people[i + 1..];
        var individual := people[i].1;
        var age :- AgeOf(individual.age);
        if age >= 150 {
          allErrors := allErrors + [TooOld(Show(individual.name), age)];
        }
        i := i + 1;
      }
      assert people[i..] == [];
      r := Ok(());
    }

    /** US08 for one individual. */
    method CheckBirthInMarriage(individual: IndiRec) returns (r: Result<(), Crash>)
      modifies this
      ensures Agrees(r, Rules.BirthBeforeMarriage(tables, individual, old(allErrors)), allErrors)
    {
      if individual.famc.Some? {
        var fam :- Union(tables, individual.famc);
        var diffDivorceAndBirth := 0;
        if fam.div.Some? {
          var birthYear :- YearOf(individual.birt);
          diffDivorceAndBirth := MonthsBetween(individual.birt.value, fam.div.value);
        }
        var birthDate :- Compared(individual.birt);
        var marriageDate :- Compared(fam.marr);
        if DaysBetween(birthDate, marriageDate) <= 0 {
          allErrors := allErrors + [BornBeforeParentsMarried(Show(individual.name))];
        } else if fam.div.Some? && diffDivorceAndBirth >= 9 {
          allErrors := allErrors + [BornAfterParentsDivorced(Show(individual.name), diffDivorceAndBirth)];
        }
      }
      r := Ok(());
    }

    /** US08: births before the parents' wedding or long after their
        divorce. */
    method BirthBeforeMarriage() returns (r: Result<(), Crash>)
      modifies this
      ensures Agrees(r, Rules.US08(tables, Rules.People(tables), old(allErrors)), allErrors)
    {
      var people := Rules.People(tables);
      var i := 0;
      while i < |people|
        invariant i <= |people|
        invariant Rules.US08(tables, people[i..], allErrors)
               == Rules.US08(tables, people, old(allErrors))
      {
        assert people[i..][0] == people[i] && people[i..][1..] == people[i + 1..];
        var u :- CheckBirthInMarriage(people[i].1);
        i := i + 1;
      }
      assert people[i..] == [];
      r := Ok(());
    }

    /** US09 for one individual. */
    method CheckParentsAlive(individual: IndiRec) returns (r: Result<(), Crash>)
      modifies this
      ensures Agrees(r, Rules.BirthBeforeDeathOfParents(tables, individual, old(allErrors)), allErrors)
    {
      if individual.famc.Some? {
        var fam :- Union(tables, individual.famc);
        var father :- Person(tables, fam.husb);
        var mother :- Person(tables, fam.wife);
        if father.deat.Some? {
          var birthYear :- YearOf(individual.birt);
          var fatherDifference := MonthsBetween(individual.birt.value, father.deat.value);
          if fatherDifference >= 9 {
            allErrors := allErrors + [BornAfterFatherDied(Show(individual.name), fatherDifference)];
          }
        }
        if mother.deat.Some? {
          var birthDate :- Compared(individual.birt);
          if DaysBetween(birthDate, mother.deat.value) >= 0 {
            allErrors := allErrors + [BornAfterMotherDied(Show(individual.name))];
          }
        }
      }
      r := Ok(());
    }

    /** US09: births long after the father's death or after the mother's. */
    method BirthBeforeDeathOfParents() returns (r: Result<(), Crash>)
      modifies this
      ensures Agrees(r, Rules.US09(tables, Rules.People(tables), old(allErrors)), allErrors)
    {
      var people := Rules.People(tables);
      var i := 0;
      while i < |people|
        invariant i <= |people|
        invariant Rules.US09(tables, people[i..], allErrors)
               == Rules.US09(tables, people, old(allErrors))
      {
        assert people[i..][0] == people[i] && people[i..][1..] == people[i + 1..];
        var u :- CheckParentsAlive(people[i].1);
        i := i + 1;
      }
      assert people[i..] == [];
      r := Ok(());
    }

    /** US10 for one individual: each of their families. */
    method CheckMarriageAges(individual: IndiRec, fams: seq<string>) returns (r: Result<(), Crash>)
      modifies this
      ensures Agrees(r, Rules.SpousesTooYoung(tables, individual, fams, old(allErrors)), allErrors)
    {
      var j := 0;
      while j < |fams|
        invariant j <= |fams|
        invariant Rules.SpousesTooYoung(tables, individual, fams[j..], allErrors)
               == Rules.SpousesTooYoung(tables, individual, fams, old(allErrors))
      {
        assert fams[j..][0] == fams[j] && fams[j..][1..] == fams[j + 1..];
        var fam :- Union(tables, Some(fams[j]));
        var marriageYear :- YearOf(fam.marr);
        var birthYear :- YearOf(individual.birt);
        var marriageDifference := marriageYear - birthYear;
        if marriageDifference <= 14 {
          allErrors := allErrors + [MarriedTooYoung(Show(individual.name), marriageDifference)];
        }
        j := j + 1;
      }
      assert fams[j..] == [];
      r := Ok(());
    }

    /** US10: spouses married at 14 or younger, by year. */
    method SpousesTooYoung() returns (r: Result<(), Crash>)
      modifies this
      ensures Agrees(r, Rules.US10(tables, Rules.People(tables), old(allErrors)), allErrors)
    {
      var people := Rules.People(tables);
      var i := 0;
      while i < |people|
        invariant i <= |people|
        invariant Rules.US10(tables, people[i..], allErrors)
               == Rules.US10(tables, people, old(allErrors))
      {
        assert people[i..][0] == people[i] && people[i..][1..] == people[i + 1..];
        var individual := people[i].1;
        if |individual.fams| > 0 {
          var u :- CheckMarriageAges(individual, Sorted(individual.fams));
        }
        i := i + 1;
      }
      assert people[i..] == [];
      r := Ok(());
    }

    /** `add_errors_if_new`. */
    method AddErrorsIfNew(error: Message)
      modifies this
      ensures allErrors == Rules.AddErrorsIfNew(old(allErrors), error)
    {
      if error !in allErrors {
        allErrors := allErrors + [error];
      }
    }

    /** US11 for one spouse named `name` with the families `fams`. */
    method BigamyScan(name: string, fams: seq<string>) returns (r: Result<(), Crash>)
      modifies this
      ensures Agrees(r, Rules.BigamyScan(tables, name, fams, None, old(allErrors)), allErrors)
    {
      var count := 0;
      var prevMarrDate, prevDivDate: Option<Date> := None, None;
      var j := 0;
      while j < |fams|
        invariant j <= |fams| && (count == 0 <==> j == 0)
        invariant Rules.BigamyScan(tables, name, fams[j..], if count == 0 then None else Some((prevMarrDate, prevDivDate)), allErrors)
               == Rules.BigamyScan(tables, name, fams, None, old(allErrors))
      {
        assert fams[j..][0] == fams[j] && fams[j..][1..] == fams[j + 1..];
        var fam :- Union(tables, Some(fams[j]));
        var currMarrDate := fam.marr;
        if count == 0 {
          prevMarrDate, prevDivDate := fam.marr, fam.div;
          count := count + 1;
          j := j + 1;
          continue;
        }
        if prevDivDate.None? {
          AddErrorsIfNew(Bigamy(name));
        } else {
          var curr :- Compared(currMarrDate);
          var prev :- Compared(prevMarrDate);
          if DaysBetween(curr, prev) > 0 && DaysBetween(curr, prevDivDate.value) < 0 {
            AddErrorsIfNew(Bigamy(name));
          }
        }
        prevMarrDate, prevDivDate := fam.marr, fam.div;
        j := j + 1;
      }
      assert fams[j..] == [];
      r := Ok(());
    }

    /** US11: a marriage during another marriage. A family whose husband has
        exactly one family is skipped, wife and all. */
    method NoBigamy() returns (r: Result<(), Crash>)
      modifies this
      ensures Agrees(r, Rules.US11(tables, old(allErrors)), allErrors)
    {
      var families := Rules.Households(tables);
      var i := 0;
      while i < |families|
        invariant i <= |families|
        invariant Rules.NoBigamy(tables, families[i..], allErrors) == Rules.NoBigamy(tables, families, old(allErrors))
      {
        assert families[i..][0] == families[i] && families[i..][1..] == families[i + 1..];
        var fam := families[i].1;
        var husband :- Person(tables, fam.husb);
        if |husband.fams| <= 1 && |husband.fams| != 0 {
          i := i + 1;
          continue;
        }
        if |husband.fams| > 1 {
          var u :- BigamyScan(Show(husband.name), Sorted(husband.fams));
        }
        var wife :- Person(tables, fam.wife);
        if |wife.fams| > 1 {
          var u :- BigamyScan(Show(wife.name), Sorted(wife.fams));
        }
        i := i + 1;
      }
      assert families[i..] == [];
      r := Ok(());
    }

    /** US12 for one individual. */
    method CheckParentsAge(indi: IndiRec) returns (r: Result<(), Crash>)
      modifies this
      ensures Agrees(r, Rules.ParentsTooOld(tables, indi, old(allErrors)), allErrors)
    {
      if indi.famc.None? {
        return Ok(());
      }
      var fam :- Union(tables, indi.famc);
      var father :- Person(tables, fam.husb);
      var age :- AgeOf(indi.age);
      var fatherAge :- AgeOf(father.age);
      if fatherAge > age + 80 {
        allErrors := allErrors + [FatherTooOld(Show(father.name), Show(indi.name))];
      }
      var mother :- Person(tables, fam.wife);
      var motherAge :- AgeOf(mother.age);
      if motherAge > age + 60 {
        allErrors := allErrors + [MotherTooOld(Show(mother.name), Show(indi.name))];
      }
      r := Ok(());
    }

    /** US12: fathers over 80 and mothers over 60 years older than their
        child. */
    method ParentsTooOld() returns (r: Result<(), Crash>)
      modifies this
      ensures Agrees(r, Rules.US12(tables, Rules.People(tables), old(allErrors)), allErrors)
    {
      var people := Rules.People(tables);
      var i := 0;
      while i < |people|
        invariant i <= |people|
        invariant Rules.US12(tables, people[i..], allErrors)
               == Rules.US12(tables, people, old(allErrors))
      {
        assert people[i..][0] == people[i] && people[i..][1..] == people[i + 1..];
        var u :- CheckParentsAge(people[i].1);
        i := i + 1;
      }
      assert people[i..] == [];
      r := Ok(());
    }

    /** US13 for the sorted children `childIds` of one family: every pair. */
    method CheckSpacing(childIds: seq<string>) returns (r: Result<(), Crash>)
      modifies this
      ensures Agrees(r, Rules.SpacingFrom(tables, childIds, 0, old(allErrors)), allErrors)
    {
      var i := 0;
      while i < |childIds|
        invariant i <= |childIds|
        invariant Rules.SpacingFrom(tables, childIds, i, allErrors)
               == Rules.SpacingFrom(tables, childIds, 0, old(allErrors))
      {
        ghost var rowStart := allErrors;
        var j := i + 1;
        while j < |childIds|
          invariant i + 1 <= j <= |childIds|
          invariant Rules.SpacingWith(tables, childIds, i, j, allErrors)
                 == Rules.SpacingWith(tables, childIds, i, i + 1, rowStart)
        {
          var child1 :- Person(tables, Some(childIds[i]));
          var child2 :- Person(tables, Some(childIds[j]));
          var birth1 :- Compared(child1.birt);
          var birth2 :- Compared(child2.birt);
          var daysApart := Rules.Abs(DaysBetween(birth1, birth2));
          var monthsApart := Rules.Abs(MonthsBetween(birth1, birth2));
          if daysApart > 2 && monthsApart < 8 {
            allErrors := allErrors + [SiblingsTooClose(Show(child1.name), Show(child2.name), daysApart)];
          }
          j := j + 1;
        }
        i := i + 1;
      }
      r := Ok(());
    }

    /** US13: siblings born more than two days but less than eight months
        apart. */
    method SiblingSpacing() returns (r: Result<(), Crash>)
      modifies this
      ensures Agrees(r, Rules.US13(tables, Rules.Households(tables), old(allErrors)), allErrors)
    {
      var families := Rules.Households(tables);
      var i := 0;
      while i < |families|
        invariant i <= |families|
        invariant Rules.US13(tables, families[i..], allErrors)
               == Rules.US13(tables, families, old(allErrors))
      {
        assert families[i..][0] == families[i] && families[i..][1..] == families[i + 1..];
        var u :- CheckSpacing(Sorted(families[i].1.chil));
        i := i + 1;
      }
      assert families[i..] == [];
      r := Ok(());
    }

    /** The first loop of US14 for one family: `birthDayDict`, the birth
        dates of the children `childIds` counted in order. */
    method CountBirths(childIds: seq<string>) returns (r: Result<Rules.Counter, Crash>)
      ensures var births := Rules.BirthsOf(tables, childIds, []);
        (r.Ok? <==> births.Ok?) && (r.Err? ==> r.error == births.error)
        && (r.Ok? ==> r.value == Rules.Tally(births.value))
    {
      var keys: seq<Option<Date>>, counts: map<Option<Date>, nat> := [], map[];
      ghost var births: seq<Option<Date>> := [];
      var i := 0;
      while i < |childIds|
        invariant i <= |childIds|
        invariant Rules.BirthsOf(tables, childIds[i..], births) == Rules.BirthsOf(tables, childIds, [])
        invariant Rules.Counter(keys, counts) == Rules.Tally(births)
      {
        assert childIds[i..][0] == childIds[i] && childIds[i..][1..] == childIds[i + 1..];
        var child :- Person(tables, Some(childIds[i]));
        if child.birt !in counts {
          keys, counts := keys + [child.birt], counts[child.birt := 1];
        } else {
          counts := counts[child.birt := counts[child.birt] + 1];
        }
        Rules.TallyAppend(births, child.birt);
        births := births + [child.birt];
        i := i + 1;
      }
      assert childIds[i..] == [];
      r := Ok(Rules.Counter(keys, counts));
    }

    /** US14 for one family: one message per birth date counted more than
        five times. */
    method CheckBirthCounts(fam: FamRec) returns (r: Result<(), Crash>)
      modifies this
      ensures Agrees(r, Rules.TooManyBirths(tables, fam, old(allErrors)), allErrors)
    {
      var birthDayDict :- CountBirths(Sorted(fam.chil));
      r := ReportCrowded(fam, birthDayDict.keys, birthDayDict.counts);
    }

    /** The loop over `birthDayDict`. */
    method ReportCrowded(fam: FamRec, keys: seq<Option<Date>>, counts: map<Option<Date>, nat>) returns (r: Result<(), Crash>)
      requires forall i :: 0 <= i < |keys| ==> keys[i] in counts
      modifies this
      ensures Agrees(r, Rules.CrowdedBirths(tables, fam, keys, counts, old(allErrors)), allErrors)
    {
      var k := 0;
      while k < |keys|
        invariant k <= |keys|
        invariant Rules.CrowdedBirths(tables, fam, keys[k..], counts, allErrors)
               == Rules.CrowdedBirths(tables, fam, keys, counts, old(allErrors))
      {
        assert keys[k..][0] == keys[k] && keys[k..][1..] == keys[k + 1..];
        if counts[keys[k]] > 5 {
          var familyName :- Rules.FamilyName(tables, fam);
          allErrors := allErrors + [TooManyMultipleBirths(familyName)];
        }
        k := k + 1;
      }
      assert keys[k..] == [];
      r := Ok(());
    }

    /** US14: more than five siblings born on the same date. */
    method TooManyBirths() returns (r: Result<(), Crash>)
      modifies this
      ensures Agrees(r, Rules.US14(tables, Rules.Households(tables), old(allErrors)), allErrors)
    {
      var families := Rules.Households(tables);
      var i := 0;
      while i < |families|
        invariant i <= |families|
        invariant Rules.US14(tables, families[i..], allErrors)
               == Rules.US14(tables, families, old(allErrors))
      {
        assert families[i..][0] == families[i] && families[i..][1..] == families[i + 1..];
        var u :- CheckBirthCounts(families[i].1);
        i := i + 1;
      }
      assert families[i..] == [];
      r := Ok(());
    }

    /** US15: families of fifteen children or more. */
    method TooManySiblings() returns (r: Result<(), Crash>)
      modifies this
      ensures Agrees(r, Rules.US15(tables, Rules.Households(tables), old(allErrors)), allErrors)
    {
      var families := Rules.Households(tables);
      var i := 0;
      while i < |families|
        invariant i <= |families|
        invariant Rules.US15(tables, families[i..], allErrors)
               == Rules.US15(tables, families, old(allErrors))
      {
        assert families[i..][0] == families[i] && families[i..][1..] == families[i + 1..];
        var fam := families[i].1;
        if |fam.chil| >= 15 {
          var familyName :- Rules.FamilyName(tables, fam);
          allErrors := allErrors + [Messages.TooManySiblings(familyName)];
        }
        i := i + 1;
      }
      assert families[i..] == [];
      r := Ok(());
    }

    /** `descendants_help(initial, current)` for the individual `pid`, given
        as `initial`: each family of `current` where `pid` is a spouse is
        reported, then the search goes on from every child. `fuel` bounds the
        depth of the recursion. */
    method DescendantsHelp(pid: string, initial: IndiRec, current: IndiRec, fuel: nat) returns (r: Result<(), Crash>)
      modifies this
      ensures Agrees(r, Rules.DescendantsHelp(tables, pid, initial, current, fuel, old(allErrors)), allErrors)
      decreases fuel, 0
    {
      if fuel == 0 {
        return Err(RecursionError);
      }
      var fams := Sorted(current.fams);
      var j := 0;
      while j < |fams|
        invariant j <= |fams|
        invariant Rules.DescendantFamilies(tables, pid, initial, current, fams[j..], fuel - 1, allErrors)
               == Rules.DescendantFamilies(tables, pid, initial, current, fams, fuel - 1, old(allErrors))
      {
        assert fams[j..][0] == fams[j] && fams[j..][1..] == fams[j + 1..];
        var u :- SearchFamily(pid, initial, current, fams[j], fuel - 1);
        j := j + 1;
      }
      assert fams[j..] == [];
      r := Ok(());
    }

    /** One family `fam` of `current` in the descendant search: reported
        when `pid` is its husband or its wife, then searched from each child. */
    method SearchFamily(pid: string, initial: IndiRec, current: IndiRec, fam: string, fuel: nat) returns (r: Result<(), Crash>)
      modifies this
      ensures Agrees(r, Rules.DescendantFamily(tables, pid, initial, current, fam, fuel, old(allErrors)), allErrors)
      decreases fuel, 2
    {
      var family :- Union(tables, Some(fam));
      var husband :- Person(tables, family.husb);
      var married := family.husb == Some(pid);
      if !married {
        var wife :- Person(tables, family.wife);
        married := family.wife == Some(pid);
      }
      if married {
        allErrors := allErrors + [MarriedToDescendant(Show(initial.name), Show(current.name))];
      }
      r := SearchChildren(pid, initial, Sorted(family.chil), fuel);
    }

    /** The loop over the children `kids` of a family in the descendant
        search: the search from each child in turn. */
    method SearchChildren(pid: string, initial: IndiRec, kids: seq<string>, fuel: nat) returns (r: Result<(), Crash>)
      modifies this
      ensures Agrees(r, Rules.DescendantChildren(tables, pid, initial, kids, fuel, old(allErrors)), allErrors)
      decreases fuel, 1
    {
      var k := 0;
      while k < |kids|
        invariant k <= |kids|
        invariant Rules.DescendantChildren(tables, pid, initial, kids[k..], fuel, allErrors)
               == Rules.DescendantChildren(tables, pid, initial, kids, fuel, old(allErrors))
      {
        assert kids[k..][0] == kids[k] && kids[k..][1..] == kids[k + 1..];
        var child :- Person(tables, Some(kids[k]));
        var u :- DescendantsHelp(pid, initial, child, fuel);
        k := k + 1;
      }
      assert kids[k..] == [];
      r := Ok(());
    }

    /** US17 for the individual `pid`: the search from every child of each
        of their families. */
    method CheckDescendants(pid: string, person: IndiRec) returns (r: Result<(), Crash>)
      modifies this
      ensures Agrees(r, Rules.NoMarriageToDescendants(tables, pid, person, Sorted(person.fams), old(allErrors)), allErrors)
    {
      var fams := Sorted(person.fams);
      var j := 0;
      while j < |fams|
        invariant j <= |fams|
        invariant Rules.NoMarriageToDescendants(tables, pid, person, fams[j..], allErrors)
               == Rules.NoMarriageToDescendants(tables, pid, person, fams, old(allErrors))
      {
        assert fams[j..][0] == fams[j] && fams[j..][1..] == fams[j + 1..];
        var fam :- Union(tables, Some(fams[j]));
        var u :- SearchChildren(pid, person, Sorted(fam.chil), Rules.SearchDepth(tables));
        j := j + 1;
      }
      assert fams[j..] == [];
      r := Ok(());
    }

    /** US17: individuals married to one of their descendants. */
    method NoMarriageToDescendants() returns (r: Result<(), Crash>)
      modifies this
      ensures Agrees(r, Rules.US17(tables, Rules.People(tables), old(allErrors)), allErrors)
    {
      var people := Rules.People(tables);
      var i := 0;
      while i < |people|
        invariant i <= |people|
        invariant Rules.US17(tables, people[i..], allErrors)
               == Rules.US17(tables, people, old(allErrors))
      {
        assert people[i..][0] == people[i] && people[i..][1..] == people[i + 1..];
        var (pid, person) := people[i];
        if |person.fams| > 0 {
          var u :- CheckDescendants(pid, person);
        }
        i := i + 1;
      }
      assert people[i..] == [];
      r := Ok(());
    }

    /** US18 for the individual `pid`: each family whose husband, or else
        whose wife, is another child of the family `pid` grew up in. */
    method CheckSiblingMarriages(pid: string, person: IndiRec) returns (r: Result<(), Crash>)
      modifies this
      ensures Agrees(r, Rules.NoMarriageToSiblings(tables, pid, person, Sorted(person.fams), old(allErrors)), allErrors)
    {
      var fams := Sorted(person.fams);
      var j := 0;
      while j < |fams|
        invariant j <= |fams|
        invariant Rules.NoMarriageToSiblings(tables, pid, person, fams[j..], allErrors)
               == Rules.NoMarriageToSiblings(tables, pid, person, fams, old(allErrors))
      {
        assert fams[j..][0] == fams[j] && fams[j..][1..] == fams[j + 1..];
        var fam :- Union(tables, Some(fams[j]));
        var tempHusb, tempWife := fam.husb, fam.wife;
        if person.famc.Some? {
          var home :- Union(tables, person.famc);
          var reported := false;
          if tempHusb.Some? && tempHusb.value in home.chil {
            var husband :- Person(tables, tempHusb);
            if tempHusb.value != pid {
              allErrors := allErrors + [MarriedToSibling(Show(person.name), Show(husband.name))];
              reported := true;
            }
          }
          if !reported && tempWife.Some? && tempWife.value in home.chil {
            var wife :- Person(tables, tempWife);
            if tempWife.value != pid {
              allErrors := allErrors + [MarriedToSibling(Show(person.name), Show(wife.name))];
            }
          }
        }
        j := j + 1;
      }
      assert fams[j..] == [];
      r := Ok(());
    }

    /** US18: individuals married to one of their siblings. */
    method NoMarriageToSiblings() returns (r: Result<(), Crash>)
      modifies this
      ensures Agrees(r, Rules.US18(tables, Rules.People(tables), old(allErrors)), allErrors)
    {
      var people := Rules.People(tables);
      var i := 0;
      while i < |people|
        invariant i <= |people|
        invariant Rules.US18(tables, people[i..], allErrors)
               == Rules.US18(tables, people, old(allErrors))
      {
        assert people[i..][0] == people[i] && people[i..][1..] == people[i + 1..];
        var (pid, person) := people[i];
        if |person.fams| > 0 {
          var u :- CheckSiblingMarriages(pid, person);
        }
        i := i + 1;
      }
      assert people[i..] == [];
      r := Ok(());
    }

    /** `get_childrenID`: the children of every family of the individual
        `indiId`, family by family. */
    method GetChildrenId(indiId: string) returns (r: Result<seq<string>, Crash>)
      ensures r == Rules.ChildrenIds(tables, indiId)
    {
      var indi :- Person(tables, Some(indiId));
      var fams := Sorted(indi.fams);
      var childrenLst: seq<string> := [];
      var j := 0;
      while j < |fams|
        invariant j <= |fams|
        invariant Rules.ChildrenOf(tables, fams[j..], childrenLst) == Rules.ChildrenOf(tables, fams, [])
      {
        assert fams[j..][0] == fams[j] && fams[j..][1..] == fams[j + 1..];
        var family :- Union(tables, Some(fams[j]));
        if |family.chil| != 0 {
          childrenLst := childrenLst + Sorted(family.chil);
        } else {
          assert childrenLst + Sorted(family.chil) == childrenLst;
        }
        j := j + 1;
      }
      assert fams[j..] == [];
      r := Ok(childrenLst);
    }

    /** `get_spouse`: the spouse in the first family of `indiId` with no
        divorce, or `None`. */
    method GetSpouse(indiId: string) returns (r: Result<Option<string>, Crash>)
      ensures r == Rules.Spouse(tables, indiId)
    {
      var indi :- Person(tables, Some(indiId));
      var fams := Sorted(indi.fams);
      var j := 0;
      while j < |fams|
        invariant j <= |fams|
        invariant Rules.SpouseIn(tables, indi, fams[j..]) == Rules.SpouseIn(tables, indi, fams)
      {
        assert fams[j..][0] == fams[j] && fams[j..][1..] == fams[j + 1..];
        var family :- Union(tables, Some(fams[j]));
        if family.div.None? {
          if indi.sex == Some("M") {
            return Ok(family.wife);
          } else {
            return Ok(family.husb);
          }
        }
        j := j + 1;
      }
      assert fams[j..] == [];
      r := Ok(None);
    }

    /** US19 for the child `curr` and the cousins `cousins`: a cousin whose
        current spouse is `curr`, unless already reported the other way round.
        `couples` is the list of pairs reported so far. */
    method CousinsAmong(curr: string, cousins: seq<string>, couples: seq<(string, string)>)
      returns (r: Result<(), Crash>, couplesOut: seq<(string, string)>)
      modifies this
      ensures var s := Rules.CousinList(tables, curr, cousins, Rules.CousinState(old(allErrors), couples));
        (r.Ok? <==> s.Ok?) && (r.Err? ==> r.error == s.error)
        && (r.Ok? ==> Rules.CousinState(allErrors, couplesOut) == s.value)
    {
      couplesOut := couples;
      var c := 0;
      while c < |cousins|
        invariant c <= |cousins|
        invariant Rules.CousinList(tables, curr, cousins[c..], Rules.CousinState(allErrors, couplesOut))
               == Rules.CousinList(tables, curr, cousins, Rules.CousinState(old(allErrors), couples))
      {
        assert cousins[c..][0] == cousins[c] && cousins[c..][1..] == cousins[c + 1..];
        var cousin := cousins[c];
        var spouse :- GetSpouse(cousin);
        if spouse == Some(curr) && (curr, cousin) !in couplesOut {
          var currIndi :- Person(tables, Some(curr));
          allErrors := allErrors + [MarriedToCousin(Show(currIndi.name), Show(tables.inds[cousin].name))];
          couplesOut := couplesOut + [(cousin, curr)];
        }
        c := c + 1;
      }
      assert cousins[c..] == [];
      r := Ok(());
    }

    /** US19 for the child `curr` on the side of the parent `parent`: the
        children of each of the parent's siblings. */
    method CousinsOnSide(parent: Option<string>, curr: string, couples: seq<(string, string)>)
      returns (r: Result<(), Crash>, couplesOut: seq<(string, string)>)
      modifies this
      ensures var s := Rules.CousinSide(tables, parent, curr, Rules.CousinState(old(allErrors), couples));
        (r.Ok? <==> s.Ok?) && (r.Err? ==> r.error == s.error)
        && (r.Ok? ==> Rules.CousinState(allErrors, couplesOut) == s.value)
    {
      couplesOut := couples;
      var p :- Person(tables, parent);
      if p.famc.None? {
        return Ok(()), couplesOut;
      }
      var home :- Union(tables, p.famc);
      var aunts := Sorted(home.chil);
      var a := 0;
      while a < |aunts|
        invariant a <= |aunts|
        invariant Rules.CousinAunts(tables, curr, aunts[a..], Rules.CousinState(allErrors, couplesOut))
               == Rules.CousinAunts(tables, curr, aunts, Rules.CousinState(old(allErrors), couples))
      {
        assert aunts[a..][0] == aunts[a] && aunts[a..][1..] == aunts[a + 1..];
        var cousins :- GetChildrenId(aunts[a]);
        var u;
        u, couplesOut :- CousinsAmong(curr, cousins, couplesOut);
        a := a + 1;
      }
      assert aunts[a..] == [];
      r := Ok(());
    }

    /** US19 for the children of one family: the mother's side, then the
        father's. */
    method CousinsInFamily(fam: FamRec, couples: seq<(string, string)>)
      returns (r: Result<(), Crash>, couplesOut: seq<(string, string)>)
      modifies this
      ensures var s := Rules.CousinChildren(tables, fam, Sorted(fam.chil), Rules.CousinState(old(allErrors), couples));
        (r.Ok? <==> s.Ok?) && (r.Err? ==> r.error == s.error)
        && (r.Ok? ==> Rules.CousinState(allErrors, couplesOut) == s.value)
    {
      couplesOut := couples;
      var mom, dad := fam.wife, fam.husb;
      var kids := Sorted(fam.chil);
      var k := 0;
      while k < |kids|
        invariant k <= |kids|
        invariant Rules.CousinChildren(tables, fam, kids[k..], Rules.CousinState(allErrors, couplesOut))
               == Rules.CousinChildren(tables, fam, kids, Rules.CousinState(old(allErrors), couples))
      {
        assert kids[k..][0] == kids[k] && kids[k..][1..] == kids[k + 1..];
        var u;
        u, couplesOut :- CousinsOnSide(mom, kids[k], couplesOut);
        u, couplesOut :- CousinsOnSide(dad, kids[k], couplesOut);
        k := k + 1;
      }
      assert kids[k..] == [];
      r := Ok(());
    }

    /** US19: individuals married to a first cousin, each couple reported
        once. */
    method NoMarriageToCousin() returns (r: Result<(), Crash>)
      modifies this
      ensures Agrees(r, Rules.US19(tables, old(allErrors)), allErrors)
    {
      var couples: seq<(string, string)> := [];
      var families := Rules.Households(tables);
      var i := 0;
      while i < |families|
        invariant i <= |families|
        invariant Rules.NoMarriageToCousin(tables, families[i..], Rules.CousinState(allErrors, couples))
               == Rules.NoMarriageToCousin(tables, families, Rules.CousinState(old(allErrors), []))
      {
        assert families[i..][0] == families[i] && families[i..][1..] == families[i + 1..];
        var u;
        u, couples :- CousinsInFamily(families[i].1, couples);
        i := i + 1;
      }
      assert families[i..] == [];
      r := Ok(());
    }

    /** US20 for the children `kids` of one sibling: those whose current
        spouse is one of the `siblingIds`. */
    method CheckNiecesAndNephews(siblingIds: set<string>, kids: seq<string>) returns (r: Result<(), Crash>)
      modifies this
      ensures Agrees(r, Rules.MarriedIntoSiblings(tables, siblingIds, kids, old(allErrors)), allErrors)
    {
      var k := 0;
      while k < |kids|
        invariant k <= |kids|
        invariant Rules.MarriedIntoSiblings(tables, siblingIds, kids[k..], allErrors)
               == Rules.MarriedIntoSiblings(tables, siblingIds, kids, old(allErrors))
      {
        assert kids[k..][0] == kids[k] && kids[k..][1..] == kids[k + 1..];
        var child := kids[k];
        var spouse :- GetSpouse(child);
        if spouse.Some? && spouse.value in siblingIds {
          allErrors := allErrors + [MarriedToAuntOrUncle(Show(tables.inds[child].name))];
        }
        k := k + 1;
      }
      assert kids[k..] == [];
      r := Ok(());
    }

    /** US20 for one family's children `siblingIds`: each sibling's
        children. */
    method CheckAuntsAndUncles(siblingIds: set<string>) returns (r: Result<(), Crash>)
      modifies this
      ensures Agrees(r, Rules.AuntsAndUncles(tables, siblingIds, Sorted(siblingIds), old(allErrors)), allErrors)
    {
      var sibs := Sorted(siblingIds);
      var s := 0;
      while s < |sibs|
        invariant s <= |sibs|
        invariant Rules.AuntsAndUncles(tables, siblingIds, sibs[s..], allErrors)
               == Rules.AuntsAndUncles(tables, siblingIds, sibs, old(allErrors))
      {
        assert sibs[s..][0] == sibs[s] && sibs[s..][1..] == sibs[s + 1..];
        var kids :- GetChildrenId(sibs[s]);
        var u :- CheckNiecesAndNephews(siblingIds, kids);
        s := s + 1;
      }
      assert sibs[s..] == [];
      r := Ok(());
    }

    /** US20: individuals married to a sibling of one of their parents. */
    method CreepyAuntsAndUncles() returns (r: Result<(), Crash>)
      modifies this
      ensures Agrees(r, Rules.US20(tables, Rules.Households(tables), old(allErrors)), allErrors)
    {
      var families := Rules.Households(tables);
      var i := 0;
      while i < |families|
        invariant i <= |families|
        invariant Rules.US20(tables, families[i..], allErrors)
               == Rules.US20(tables, families, old(allErrors))
      {
        assert families[i..][0] == families[i] && families[i..][1..] == families[i + 1..];
        var siblingIds := families[i].1.chil;
        if |siblingIds| != 0 {
          var u :- CheckAuntsAndUncles(siblingIds);
        }
        i := i + 1;
      }
      assert families[i..] == [];
      r := Ok(());
    }

    /** US21: a female husband or a male wife. */
    method CorrectGenderRole() returns (r: Result<(), Crash>)
      modifies this
      ensures Agrees(r, Rules.US21(tables, Rules.Households(tables), old(allErrors)), allErrors)
    {
      var families := Rules.Households(tables);
      var i := 0;
      while i < |families|
        invariant i <= |families|
        invariant Rules.US21(tables, families[i..], allErrors)
               == Rules.US21(tables, families, old(allErrors))
      {
        assert families[i..][0] == families[i] && families[i..][1..] == families[i + 1..];
        var fam := families[i].1;
        var husband :- Person(tables, fam.husb);
        var lastWord := LastWord(Show(husband.name));
        if lastWord.None? {
          return Err(IndexError);
        }
        var familyName := StripSlashes(lastWord.value);
        var wife :- Person(tables, fam.wife);
        if husband.sex == Some("F") {
          allErrors := allErrors + [FemaleHusband(familyName, Show(husband.name))];
        }
        if wife.sex == Some("M") {
          allErrors := allErrors + [MaleWife(familyName, Show(wife.name))];
        }
        i := i + 1;
      }
      assert families[i..] == [];
      r := Ok(());
    }

    /** US23: individuals with the name and birth date of an earlier one. */
    method UniqueNamesAndBdays()
      modifies this
      ensures allErrors == Rules.US23(tables, old(allErrors))
    {
      var namesAndBdays: seq<(Option<string>, Option<Date>)> := [];
      var people := Rules.People(tables);
      var i := 0;
      while i < |people|
        invariant i <= |people|
        invariant Rules.UniqueNamesAndBdays(people[i..], namesAndBdays, allErrors)
               == Rules.UniqueNamesAndBdays(people, [], old(allErrors))
      {
        assert people[i..][0] == people[i] && people[i..][1..] == people[i + 1..];
        var person := people[i].1;
        if (person.name, person.birt) in namesAndBdays {
          allErrors := allErrors + [DuplicateNameAndBirthday(Show(person.name), person.birt)];
        } else {
          namesAndBdays := namesAndBdays + [(person.name, person.birt)];
        }
        i := i + 1;
      }
      assert people[i..] == [];
    }

    /** US24: families with the spouses' names and marriage date of an
        earlier one. */
    method UniqueSpousesInFamily() returns (r: Result<(), Crash>)
      modifies this
      ensures Agrees(r, Rules.US24(tables, old(allErrors)), allErrors)
    {
      var uniqueFamilies: seq<(Option<string>, Option<string>, Option<Date>)> := [];
      var families := Rules.Households(tables);
      var i := 0;
      while i < |families|
        invariant i <= |families|
        invariant Rules.UniqueSpousesInFamily(tables, families[i..], uniqueFamilies, allErrors)
               == Rules.UniqueSpousesInFamily(tables, families, [], old(allErrors))
      {
        assert families[i..][0] == families[i] && families[i..][1..] == families[i + 1..];
        var family := families[i].1;
        var husband :- Person(tables, family.husb);
        var wife :- Person(tables, family.wife);
        var husbName, wifeName := husband.name, wife.name;
        if (husbName, wifeName, family.marr) in uniqueFamilies {
          allErrors := allErrors + [DuplicateSpouses(Show(husbName), Show(wifeName), family.marr)];
        } else {
          uniqueFamilies := uniqueFamilies + [(husbName, wifeName, family.marr)];
        }
        i := i + 1;
      }
      assert families[i..] == [];
      r := Ok(());
    }

    /** US25 for the family `id`: children with the name and birth date of an
        earlier child. */
    method CheckUniqueChildren(id: string, family: FamRec) returns (r: Result<(), Crash>)
      modifies this
      ensures Agrees(r, Rules.UniqueChildren(tables, id, Sorted(family.chil), [], old(allErrors)), allErrors)
    {
      var uniqueChildNames: seq<(Option<string>, Option<Date>)> := [];
      var kids := Sorted(family.chil);
      var k := 0;
      while k < |kids|
        invariant k <= |kids|
        invariant Rules.UniqueChildren(tables, id, kids[k..], uniqueChildNames, allErrors)
               == Rules.UniqueChildren(tables, id, kids, [], old(allErrors))
      {
        assert kids[k..][0] == kids[k] && kids[k..][1..] == kids[k + 1..];
        var child :- Person(tables, Some(kids[k]));
        var childName, childBday := child.name, child.birt;
        if (childName, childBday) in uniqueChildNames {
          allErrors := allErrors + [DuplicateChild(Show(childName), childBday, id)];
        } else {
          uniqueChildNames := uniqueChildNames + [(childName, childBday)];
        }
        k := k + 1;
      }
      assert kids[k..] == [];
      r := Ok(());
    }

    /** US25: children of one family with the same name and birth date. */
    method UniqueChildrenInFamily() returns (r: Result<(), Crash>)
      modifies this
      ensures Agrees(r, Rules.US25(tables, Rules.Households(tables), old(allErrors)), allErrors)
    {
      var families := Rules.Households(tables);
      var i := 0;
      while i < |families|
        invariant i <= |families|
        invariant Rules.US25(tables, families[i..], allErrors)
               == Rules.US25(tables, families, old(allErrors))
      {
        assert families[i..][0] == families[i] && families[i..][1..] == families[i + 1..];
        var (id, family) := families[i];
        var u :- CheckUniqueChildren(id, family);
        i := i + 1;
      }
      assert families[i..] == [];
      r := Ok(());
    }

    /** The checks `__init__` runs, in its order: the messages of all of
        them, or the first exception. */
    method RunAll() returns (r: Result<(), Crash>)
      modifies this
      ensures Agrees(r, Rules.CheckAll(tables, today, old(allErrors)), allErrors)
    {
      var u :- DatesBeforeCurr();
      u :- IndiBirthBeforeMarriage();
      u :- BirthBeforeDeath();
      u :- MarrBeforeDiv();
      u :- MarrDivBeforeDeath();
      u :- NormalAge();
      u :- BirthBeforeMarriage();
      u :- BirthBeforeDeathOfParents();
      u :- SpousesTooYoung();
      u :- NoBigamy();
      u :- ParentsTooOld();
      u :- SiblingSpacing();
      u :- TooManyBirths();
      u :- TooManySiblings();
      u :- NoMarriageToDescendants();
      u :- NoMarriageToSiblings();
      u :- NoMarriageToCousin();
      u :- CreepyAuntsAndUncles();
      u :- CorrectGenderRole();
      UniqueNamesAndBdays();
      u :- UniqueSpousesInFamily();
      u :- UniqueChildrenInFamily();
      r := Ok(());
    }
  }
}

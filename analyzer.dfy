/** `AnalyzeGEDCOM` of GedcomProject.py: the object that reads the lines of
    a GEDCOM file one by one into its `individuals` and `family` dicts and its
    list of US22 messages, proved to compute what the `Assembly` state
    machine says. Each record is held as a value under its id (see
    README.md, "Left out"). */
module GedcomAnalyzer {
  import opened Wrappers
  import opened Strings
  import opened Dates
  import opened Messages
  import opened Records
  import Assembly

  class Analyzer {
    var individuals: map<string, IndiRec>
    var indOrder: seq<string>
    var family: map<string, FamRec>
    var famOrder: seq<string>
    var errors: seq<Message>

    /** The two dicts with their insertion orders. */
    function Tables(): Tables
      reads this
    {
      Records.Tables(individuals, indOrder, family, famOrder)
    }

    /** Each order lists its dict's keys once each. */
    ghost predicate Valid()
      reads this
    {
      Tables().Valid()
    }

    /** The state machine's state: these dicts and messages with the loop's
        own variables. */
    function State(mode: Assembly.Mode, indiv: string, fam: string, previous: seq<string>): Assembly.Machine
      reads this
    {
      Assembly.Machine(Tables(), errors, mode, indiv, fam, previous)
    }

    /** No records and no messages. */
    constructor()
      ensures Valid() && Tables() == EmptyTables && errors == []
    {
      individuals, indOrder, family, famOrder, errors := map[], [], map[], [], [];
    }

    /** A level-1 field line of the current individual, its argument
        already stripped of `@`. */
    method SetIndividualField(idn: string, tag: string, arg: string)
      requires idn in individuals
      modifies this
      ensures Tables() == Assembly.SetField(old(Tables()), Assembly.InIndividual, idn, "", tag, arg)
      ensures errors == old(errors)
    {
      var p := individuals[idn];
      if tag == "FAMS" {
        individuals := individuals[idn := p.(fams := p.fams + {arg})];
      } else if tag == "NAME" {
        individuals := individuals[idn := p.(name := Some(arg))];
      } else if tag == "SEX" {
        individuals := individuals[idn := p.(sex := Some(arg))];
      } else if tag == "FAMC" {
        individuals := individuals[idn := p.(famc := Some(arg))];
      }
    }

    /** A level-1 field line of the current family. */
    method SetFamilyField(fam: string, tag: string, arg: string)
      requires fam in family
      modifies this
      ensures Tables() == Assembly.SetField(old(Tables()), Assembly.InFamily, "", fam, tag, arg)
      ensures errors == old(errors)
    {
      var f := family[fam];
      if tag == "HUSB" {
        family := family[fam := f.(husb := Some(arg))];
      } else if tag == "WIFE" {
        family := family[fam := f.(wife := Some(arg))];
      } else if tag == "CHIL" {
        family := family[fam := f.(chil := f.chil + {arg})];
      }
    }

    /** A date under `1 BIRT` or `1 DEAT` of the current individual. */
    method SetIndividualDate(idn: string, event: string, d: Date)
      requires idn in individuals
      modifies this
      ensures Tables() == Assembly.SetDate(old(Tables()), Assembly.InIndividual, idn, "", event, d)
      ensures errors == old(errors)
    {
      var p := individuals[idn];
      if event == "BIRT" {
        individuals := individuals[idn := p.(birt := Some(d))];
      } else if event == "DEAT" {
        individuals := individuals[idn := p.(deat := Some(d))];
      }
    }

    /** A date under `1 MARR` or `1 DIV` of the current family. */
    method SetFamilyDate(fam: string, event: string, d: Date)
      requires fam in family
      modifies this
      ensures Tables() == Assembly.SetDate(old(Tables()), Assembly.InFamily, "", fam, event, d)
      ensures errors == old(errors)
    {
      var f := family[fam];
      if event == "MARR" {
        family := family[fam := f.(marr := Some(d))];
      } else if event == "DIV" {
        family := family[fam := f.(div := Some(d))];
      }
    }

    /** `analyze_info`: a line inside the current record. */
    method AnalyzeInfo(line: Assembly.Line, previous: seq<string>, idn: string, fam: string, mode: Assembly.Mode)
      returns (r: Result<(), Assembly.Abort>)
      requires mode == Assembly.InIndividual ==> idn in individuals
      requires mode == Assembly.InFamily ==> fam in family
      modifies this
      ensures errors == old(errors)
      ensures var s := Assembly.AnalyzeInfo(old(Tables()), line, previous, idn, fam, mode);
        (r.Ok? <==> s.Ok?) && (r.Err? ==> r.error == s.error) && (s.Ok? ==> Tables() == s.value)
    {
      if |line| == 2 {
        return Ok(());
      }
      if |line| == 1 {
        return Err(Assembly.Unreadable);
      }
      var level := ParseInt(line[0]);
      if level.None? {
        return Err(Assembly.Unreadable);
      }
      var tag, arg := line[1], line[2];
      if level.value == 1 && Assembly.IsFieldTag(tag) {
        arg := RemoveAt(arg);
        if mode == Assembly.InIndividual {
          SetIndividualField(idn, tag, arg);
        } else if mode == Assembly.InFamily {
          SetFamilyField(fam, tag, arg);
        }
      } else if level.value == 2 && tag == "DATE" {
        if |previous| != 2 {
          return Err(Assembly.Unreadable);
        }
        var pLevel, pTag := previous[0], previous[1];
        var d := ParseDate(arg);
        if d.None? {
          return Err(Assembly.Unreadable);
        }
        if pLevel == "1" && Assembly.IsEventTag(pTag) {
          if mode == Assembly.InIndividual {
            SetIndividualDate(idn, pTag, d.value);
          } else if mode == Assembly.InFamily {
            SetFamilyDate(fam, pTag, d.value);
          }
        }
      }
      return Ok(());
    }

    /** One pass of the loop in `analyze`: the loop's variables afterwards,
        or the exception. */
    method Step(line: Assembly.Line, mode: Assembly.Mode, indiv: string, fam: string, previous: seq<string>)
      returns (r: Result<(Assembly.Mode, string, string, seq<string>), Assembly.Abort>)
      requires State(mode, indiv, fam, previous).Valid()
      modifies this
      ensures var s := Assembly.Step(old(State(mode, indiv, fam, previous)), line);
        (r.Ok? <==> s.Ok?) && (r.Err? ==> r.error == s.error)
        && (r.Ok? ==> State(r.value.0, r.value.1, r.value.2, r.value.3) == s.value)
    {
      if line[0] == "0" && |line| < 2 {
        return Err(Assembly.ShortLine);
      }
      if line[0] == "0" && Assembly.IsHeader(line[1]) {
        return Ok((mode, indiv, fam, previous));
      }
      if line[0] == "0" && |line| < 3 {
        return Err(Assembly.ShortLine);
      }
      if line[0] == "0" && line[2] == "INDI" {
        var id := RemoveAt(line[1]);
        if id in individuals {
          errors := errors + [DuplicateIndividual(id)];
        } else {
          individuals := individuals[id := NewIndi];
          indOrder := indOrder + [id];
        }
        return Ok((Assembly.InIndividual, id, fam, previous));
      }
      if line[0] == "0" && line[2] == "FAM" {
        var id := RemoveAt(line[1]);
        if id in family {
          errors := errors + [DuplicateFamily(id)];
        } else {
          family := family[id := NewFam];
          famOrder := famOrder + [id];
        }
        return Ok((Assembly.InFamily, indiv, id, previous));
      }
      if mode != Assembly.Idle {
        var outcome := AnalyzeInfo(line, previous, indiv, fam, mode);
        if outcome.Err? {
          return Err(outcome.error);
        }
      }
      return Ok((mode, indiv, fam, line));
    }

    /** The loop over the lines in `analyze`: the records and US22 messages
        the state machine computes, or the exception it raises. */
    method Assemble(lines: seq<Assembly.Line>) returns (r: Result<(), Assembly.Abort>)
      requires Tables() == EmptyTables && errors == []
      modifies this
      ensures var s := Assembly.Run(Assembly.Start, lines);
        (r.Ok? <==> s.Ok?) && (r.Err? ==> r.error == s.error)
        && (s.Ok? ==> Tables() == s.value.tables && errors == s.value.errors)
    {
      var indiv, fam, previous, mode := "", "", [], Assembly.Idle;
      assert State(mode, indiv, fam, previous) == Assembly.Start;
      var i := 0;
      while i < |lines|
        invariant 0 <= i <= |lines|
        invariant State(mode, indiv, fam, previous).Valid()
        invariant Assembly.Run(State(mode, indiv, fam, previous), lines[i..]) == Assembly.Run(Assembly.Start, lines)
      {
        assert lines[i..][0] == lines[i] && lines[i..][1..] == lines[i + 1..];
        var next := Step(lines[i], mode, indiv, fam, previous);
        if next.Err? {
          return Err(next.error);
        }
        mode, indiv, fam, previous := next.value.0, next.value.1, next.value.2, next.value.3;
        i := i + 1;
      }
      return Ok(());
    }

    /** The final loop of `analyze`: `update_age` of every individual in
        the order they were declared, stopping at the first one with no
        birth date. */
    method UpdateAges(today: Date) returns (ok: bool)
      requires Valid()
      modifies this
      ensures Valid() && errors == old(errors)
      ensures var s := Assembly.UpdateAges(old(Tables()), today, old(indOrder));
        (ok <==> s.Ok?) && (ok ==> Tables() == s.value)
    {
      var j := 0;
      while j < |indOrder|
        invariant 0 <= j <= |indOrder| && indOrder == old(indOrder) && errors == old(errors)
        invariant individuals.Keys == old(individuals.Keys) && family == old(family) && famOrder == old(famOrder)
        invariant Valid()
        invariant Assembly.UpdateAges(Tables(), today, indOrder[j..]) == Assembly.UpdateAges(old(Tables()), today, indOrder)
      {
        var id := indOrder[j];
        assert indOrder[j..][0] == id && indOrder[j..][1..] == indOrder[j + 1..];
        var aged := Assembly.UpdateAge(individuals[id], today);
        if aged.Err? {
          return false;
        }
        ghost var before := Tables();
        individuals := individuals[id := aged.value];
        SameIdsValid(before, Tables());
        j := j + 1;
      }
      return true;
    }

    /** `analyze` on a fresh analyzer: the tables and US22 messages the
        state machine computes, or the exception it raises. */
    method Analyze(lines: seq<Assembly.Line>, today: Date) returns (r: Result<(), Assembly.Abort>)
      requires Tables() == EmptyTables && errors == []
      modifies this
      ensures r.Ok? <==> Assembly.Analyze(lines, today).Ok?
      ensures r.Err? ==> r.error == Assembly.Analyze(lines, today).error
      ensures r.Ok? ==> Valid() && (Tables(), errors) == Assembly.Analyze(lines, today).value
    {
      r := Assemble(lines);
      if r.Err? {
        return;
      }
      var ok := UpdateAges(today);
      if !ok {
        return Err(Assembly.NoBirthDate);
      }
    }
  }
}

/** `AnalyzeGEDCOM` of Project3.py: the object that reads the lines of a
    GEDCOM file one by one into its `individuals` and `family` dicts, proved
    to compute what the `Project3` state machine says. Each record is held
    as a value under its id (see README.md, "Left out"). */
module Project3Analyzer {
  import opened Wrappers
  import opened Strings
  import opened Dates
  import opened Records
  import opened Project3
  import Assembly

  class Analyzer {
    var individuals: map<string, Individual>
    var indOrder: seq<string>
    var family: map<string, Family>
    var famOrder: seq<string>

    /** The two dicts with their insertion orders. */
    function Tables(): Roster
      reads this
    {
      Roster(individuals, indOrder, family, famOrder)
    }

    /** Each order lists its dict's keys once each. */
    ghost predicate Valid()
      reads this
    {
      Tables().Valid()
    }

    /** The state machine's state: these dicts with the loop's own
        variables. */
    function State(mode: Assembly.Mode, indiv: string, fam: string, previous: seq<string>): Machine
      reads this
    {
      Machine(Tables(), mode, indiv, fam, previous)
    }

    /** No records. */
    constructor()
      ensures Valid() && Tables() == EmptyRoster
    {
      individuals, indOrder, family, famOrder := map[], [], map[], [];
    }

    /** A level-1 field line of the current individual, its argument
        already stripped of `@`. */
    method SetIndividualField(idn: string, tag: string, arg: string)
      requires idn in individuals
      modifies this
      ensures Tables() == Project3.SetField(old(Tables()), Assembly.InIndividual, idn, "", tag, arg)
    {
      var p := individuals[idn];
      if tag == "FAMS" {
        individuals := individuals[idn := p.(fams := p.fams + {arg})];
      } else if tag == "NAME" {
        individuals := individuals[idn := p.(name := arg)];
      } else if tag == "SEX" {
        individuals := individuals[idn := p.(sex := arg)];
      } else if tag == "FAMC" {
        individuals := individuals[idn := p.(famc := arg)];
      }
    }

    /** A level-1 field line of the current family. */
    method SetFamilyField(fam: string, tag: string, arg: string)
      requires fam in family
      modifies this
      ensures Tables() == Project3.SetField(old(Tables()), Assembly.InFamily, "", fam, tag, arg)
    {
      var f := family[fam];
      if tag == "HUSB" {
        family := family[fam := f.(husb := arg)];
      } else if tag == "WIFE" {
        family := family[fam := f.(wife := arg)];
      } else if tag == "CHIL" {
        family := family[fam := f.(chil := f.chil + {arg})];
      }
    }

    /** A date under `1 BIRT` or `1 DEAT` of the current individual. */
    method SetIndividualDate(idn: string, event: string, d: Date)
      requires idn in individuals
      modifies this
      ensures Tables() == Project3.SetDate(old(Tables()), Assembly.InIndividual, idn, "", event, d)
    {
      var p := individuals[idn];
      if event == "BIRT" {
        individuals := individuals[idn := p.(birt := Some(d))];
      } else if event == "DEAT" {
        individuals := individuals[idn := p.(deat := Some(d))];
      }
    }

    /** A date under `1 MARR` or `1 DIV` of the current family. */
    method SetFamilyDate(fam: string, event: string, d: Date)
      requires fam in family
      modifies this
      ensures Tables() == Project3.SetDate(old(Tables()), Assembly.InFamily, "", fam, event, d)
    {
      var f := family[fam];
      if event == "MARR" {
        family := family[fam := f.(marr := Some(d))];
      } else if event == "DIV" {
        family := family[fam := f.(div := Some(d))];
      }
    }

    /** `analyze_info`: a line inside the current record. */
    method AnalyzeInfo(line: Assembly.Line, previous: seq<string>, idn: string, fam: string, mode: Assembly.Mode)
      returns (r: Result<(), Assembly.Abort>)
      requires mode == Assembly.InIndividual ==> idn in individuals
      requires mode == Assembly.InFamily ==> fam in family
      modifies this
      ensures var s := Project3.AnalyzeInfo(old(Tables()), line, previous, idn, fam, mode);
        (r.Ok? <==> s.Ok?) && (r.Err? ==> r.error == s.error) && (s.Ok? ==> Tables() == s.value)
    {
      if |line| == 2 {
        return Ok(());
      }
      if |line| == 1 {
        return Err(Assembly.Unreadable);
      }
      var level := ParseInt(line[0]);
      if level.None? {
        return Err(Assembly.Unreadable);
      }
      var tag, arg := line[1], line[2];
      if level.value == 1 && Assembly.IsFieldTag(tag) {
        arg := RemoveAt(arg);
        if mode == Assembly.InIndividual {
          SetIndividualField(idn, tag, arg);
        } else if mode == Assembly.InFamily {
          SetFamilyField(fam, tag, arg);
        }
      } else if level.value == 2 && tag == "DATE" {
        if |previous| != 2 {
          return Err(Assembly.Unreadable);
        }
        var pLevel, pTag := previous[0], previous[1];
        var d := ParseDate(arg);
        if d.None? {
          return Err(Assembly.Unreadable);
        }
        if pLevel == "1" && Assembly.IsEventTag(pTag) {
          if mode == Assembly.InIndividual {
            SetIndividualDate(idn, pTag, d.value);
          } else if mode == Assembly.InFamily {
            SetFamilyDate(fam, pTag, d.value);
          }
        }
      }
      return Ok(());
    }

    /** One pass of the loop in `analyze`: the loop's variables afterwards,
        or the exception. */
    method Step(line: Assembly.Line, mode: Assembly.Mode, indiv: string, fam: string, previous: seq<string>)
      returns (r: Result<(Assembly.Mode, string, string, seq<string>), Assembly.Abort>)
      requires State(mode, indiv, fam, previous).Valid()
      modifies this
      ensures var s := Project3.Step(old(State(mode, indiv, fam, previous)), line);
        (r.Ok? <==> s.Ok?) && (r.Err? ==> r.error == s.error)
        && (r.Ok? ==> State(r.value.0, r.value.1, r.value.2, r.value.3) == s.value)
    {
      if line[0] == "0" && |line| < 2 {
        return Err(Assembly.ShortLine);
      }
      if line[0] == "0" && Assembly.IsHeader(line[1]) {
        return Ok((mode, indiv, fam, previous));
      }
      if line[0] == "0" && |line| < 3 {
        return Err(Assembly.ShortLine);
      }
      if line[0] == "0" && line[2] == "INDI" {
        var id := RemoveAt(line[1]);
        if id !in individuals {
          indOrder := indOrder + [id];
        }
        individuals := individuals[id := NewIndividual];
        return Ok((Assembly.InIndividual, id, fam, previous));
      }
      if line[0] == "0" && line[2] == "FAM" {
        var id := RemoveAt(line[1]);
        if id !in family {
          famOrder := famOrder + [id];
        }
        family := family[id := NewFamily];
        return Ok((Assembly.InFamily, indiv, id, previous));
      }
      if mode != Assembly.Idle {
        var outcome := AnalyzeInfo(line, previous, indiv, fam, mode);
        if outcome.Err? {
          return Err(outcome.error);
        }
      }
      return Ok((mode, indiv, fam, line));
    }

    /** `analyze`: the loop over the lines, computing the dicts the state
        machine computes, or the exception it raises. */
    method Assemble(lines: seq<Assembly.Line>) returns (r: Result<(), Assembly.Abort>)
      requires Tables() == EmptyRoster
      modifies this
      ensures var s := Project3.Run(Start, lines);
        (r.Ok? <==> s.Ok?) && (r.Err? ==> r.error == s.error)
        && (s.Ok? ==> Valid() && Tables() == s.value.roster)
    {
      var indiv, fam, previous, mode := "", "", [], Assembly.Idle;
      assert State(mode, indiv, fam, previous) == Start;
      var i := 0;
      while i < |lines|
        invariant 0 <= i <= |lines|
        invariant State(mode, indiv, fam, previous).Valid()
        invariant Project3.Run(State(mode, indiv, fam, previous), lines[i..]) == Project3.Run(Start, lines)
      {
        assert lines[i..][0] == lines[i] && lines[i..][1..] == lines[i + 1..];
        var next := Step(lines[i], mode, indiv, fam, previous);
        if next.Err? {
          return Err(next.error);
        }
        mode, indiv, fam, previous := next.value.0, next.value.1, next.value.2, next.value.3;
        i := i + 1;
      }
      assert lines[i..] == [];
      return Ok(());
    }

    /** The `update_info` calls of `create_pretty_tables`, one for every
        individual in the order they were declared, stopping at the first
        one with no birth date. */
    method UpdateInfos(today: Date) returns (ok: bool)
      requires Valid()
      modifies this
      ensures Valid()
      ensures var s := Project3.UpdateInfos(old(Tables()), today, old(indOrder));
        (ok <==> s.Ok?) && (ok ==> Tables() == s.value)
    {
      var j := 0;
      while j < |indOrder|
        invariant 0 <= j <= |indOrder| && indOrder == old(indOrder)
        invariant individuals.Keys == old(individuals.Keys) && family == old(family) && famOrder == old(famOrder)
        invariant Valid()
        invariant Project3.UpdateInfos(Tables(), today, indOrder[j..]) == Project3.UpdateInfos(old(Tables()), today, indOrder)
      {
        var id := indOrder[j];
        assert indOrder[j..][0] == id && indOrder[j..][1..] == indOrder[j + 1..];
        var informed := UpdateInfo(individuals[id], today);
        if informed.Err? {
          return false;
        }
        ghost var before := Tables();
        individuals := individuals[id := informed.value];
        SameKeysValid(before, Tables());
        j := j + 1;
      }
      return true;
    }

    /** `AnalyzeGEDCOM(file_name, create_tables)` on the lines of the file:
        the dicts the state machine computes, or the exception it raises. */
    method Analyze(lines: seq<Assembly.Line>, today: Date, createTables: bool) returns (r: Result<(), Assembly.Abort>)
      requires Tables() == EmptyRoster
      modifies this
      ensures r.Ok? <==> Project3.Analyze(lines, today, createTables).Ok?
      ensures r.Err? ==> r.error == Project3.Analyze(lines, today, createTables).error
      ensures r.Ok? ==> Valid() && Tables() == Project3.Analyze(lines, today, createTables).value
    {
      r := Assemble(lines);
      if r.Err? || !createTables {
        return;
      }
      var ok := UpdateInfos(today);
      if !ok {
        return Err(Assembly.NoBirthDate);
      }
    }
  }
}

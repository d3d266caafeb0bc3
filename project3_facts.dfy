/** Properties of the state machine of Project3.py's `AnalyzeGEDCOM`. */
module Project3Facts {
  import opened Wrappers
  import opened Strings
  import opened Dates
  import opened Records
  import opened Project3
  import Assembly

  /** Declaring an id again installs a fresh default individual in place of
      the old one, whatever it held, and records no error; a new id goes
      at the end of the order. The previous line is left as it was. */
  lemma DeclareIndividualLine(m: Machine, line: Assembly.Line)
    requires m.Valid()
    requires |line| == 3 && line[0] == "0" && !Assembly.IsHeader(line[1]) && line[2] == "INDI"
    ensures var id := RemoveAt(line[1]);
      Step(m, line).Ok?
      && var r := Step(m, line).value;
      r.mode == Assembly.InIndividual && r.indiv == id && r.fam == m.fam && r.previous == m.previous
      && r.roster.family == m.roster.family && r.roster.famOrder == m.roster.famOrder
      && r.roster.individuals == m.roster.individuals[id := NewIndividual]
      && r.roster.individuals[id].name == NA && r.roster.individuals[id].birt.None?
      && r.roster.individuals[id].age.None? && r.roster.individuals[id].alive
      && (id in m.roster.individuals ==> r.roster.indOrder == m.roster.indOrder)
      && (id !in m.roster.individuals ==> r.roster.indOrder == m.roster.indOrder + [id])
  {
  }

  /** The same for `0 @id@ FAM`. */
  lemma DeclareFamilyLine(m: Machine, line: Assembly.Line)
    requires m.Valid()
    requires |line| == 3 && line[0] == "0" && !Assembly.IsHeader(line[1]) && line[2] != "INDI" && line[2] == "FAM"
    ensures var id := RemoveAt(line[1]);
      Step(m, line).Ok?
      && var r := Step(m, line).value;
      r.mode == Assembly.InFamily && r.fam == id && r.indiv == m.indiv && r.previous == m.previous
      && r.roster.individuals == m.roster.individuals && r.roster.indOrder == m.roster.indOrder
      && r.roster.family == m.roster.family[id := NewFamily]
      && r.roster.family[id].husb == NA && r.roster.family[id].wife == NA
      && r.roster.family[id].marr.None? && r.roster.family[id].chil == {}
      && (id in m.roster.family ==> r.roster.famOrder == m.roster.famOrder)
      && (id !in m.roster.family ==> r.roster.famOrder == m.roster.famOrder + [id])
  {
  }

  /** `0 HEAD`, `0 TRLR` and `0 NOTE` change nothing, not even the previous
      line. */
  lemma HeaderLine(m: Machine, line: Assembly.Line)
    requires m.Valid()
    requires |line| >= 2 && line[0] == "0" && Assembly.IsHeader(line[1])
    ensures Step(m, line) == Ok(m)
  {
  }

  /** A level-0 line that is not a header needs three fields. */
  lemma ShortLevelZeroLine(m: Machine, line: Assembly.Line)
    requires m.Valid()
    requires line[0] == "0" && (|line| == 1 || (|line| == 2 && !Assembly.IsHeader(line[1])))
    ensures Step(m, line) == Err(Assembly.ShortLine)
  {
  }

  /** A two-field line such as `1 BIRT`, and any line before the first
      record, changes no record but still becomes the previous line. */
  lemma PassiveLine(m: Machine, line: Assembly.Line)
    requires m.Valid()
    requires line[0] != "0"
    requires |line| == 2 || m.mode == Assembly.Idle
    ensures Step(m, line) == Ok(m.(previous := line))
  {
  }

  /** All records other than the one named. */
  predicate OthersUnchanged(a: Roster, b: Roster, mode: Assembly.Mode, idn: string, fam: string)
  {
    (forall k :: k in a.individuals && (mode != Assembly.InIndividual || k != idn) ==>
       k in b.individuals && b.individuals[k] == a.individuals[k])
    && (forall k :: k in a.family && (mode != Assembly.InFamily || k != fam) ==>
          k in b.family && b.family[k] == a.family[k])
  }

  /** A level-1 field line changes only the current record: `FAMS` and
      `CHIL` add to a set, `NAME`, `SEX`, `FAMC`, `HUSB` and `WIFE`
      overwrite, the argument always stripped of `@`; a tag of the other
      kind of record changes nothing. */
  lemma FieldLine(m: Machine, line: Assembly.Line)
    requires m.Valid() && m.mode != Assembly.Idle
    requires |line| == 3 && ParseInt(line[0]) == Some(1) && Assembly.IsFieldTag(line[1])
    ensures Step(m, line).Ok?
    ensures var r := Step(m, line).value;
      var tag, arg := line[1], RemoveAt(line[2]);
      r == m.(roster := r.roster, previous := line)
      && SameKeys(m.roster, r.roster)
      && OthersUnchanged(m.roster, r.roster, m.mode, m.indiv, m.fam)
      && (m.mode == Assembly.InIndividual ==>
            var p, q := m.roster.individuals[m.indiv], r.roster.individuals[m.indiv];
            r.roster.family == m.roster.family
            && (tag == "FAMS" ==> q == p.(fams := p.fams + {arg}))
            && (tag == "NAME" ==> q == p.(name := arg))
            && (tag == "SEX" ==> q == p.(sex := arg))
            && (tag == "FAMC" ==> q == p.(famc := arg))
            && (tag == "HUSB" || tag == "WIFE" || tag == "CHIL" ==> r.roster == m.roster))
      && (m.mode == Assembly.InFamily ==>
            var f, g := m.roster.family[m.fam], r.roster.family[m.fam];
            r.roster.individuals == m.roster.individuals
            && (tag == "HUSB" ==> g == f.(husb := arg))
            && (tag == "WIFE" ==> g == f.(wife := arg))
            && (tag == "CHIL" ==> g == f.(chil := f.chil + {arg}))
            && (tag == "NAME" || tag == "SEX" || tag == "FAMC" || tag == "FAMS" ==> r.roster == m.roster))
  {
    assert line[0] != "0";
  }

  /** A `2 DATE` line inside a record: the previous line must have exactly
      two fields and the date must parse, whatever the previous tag; the date
      is stored only under a level-"1" `BIRT`/`DEAT` (individual) or
      `MARR`/`DIV` (family) line, and otherwise nothing changes. */
  lemma DateLine(m: Machine, line: Assembly.Line)
    requires m.Valid() && m.mode != Assembly.Idle
    requires |line| == 3 && ParseInt(line[0]) == Some(2) && line[1] == "DATE"
    ensures |m.previous| != 2 ==> Step(m, line) == Err(Assembly.Unreadable)
    ensures ParseDate(line[2]).None? ==> Step(m, line) == Err(Assembly.Unreadable)
    ensures |m.previous| == 2 && ParseDate(line[2]).Some? ==>
      Step(m, line).Ok?
      && var r, d, ev := Step(m, line).value, ParseDate(line[2]).value, m.previous[1];
      r == m.(roster := r.roster, previous := line)
      && SameKeys(m.roster, r.roster)
      && OthersUnchanged(m.roster, r.roster, m.mode, m.indiv, m.fam)
      && (m.previous[0] != "1" || !Assembly.IsEventTag(ev) ==> r.roster == m.roster)
      && (m.previous[0] == "1" && m.mode == Assembly.InIndividual ==>
            var p, q := m.roster.individuals[m.indiv], r.roster.individuals[m.indiv];
            r.roster.family == m.roster.family
            && (ev == "BIRT" ==> q == p.(birt := Some(d)))
            && (ev == "DEAT" ==> q == p.(deat := Some(d)))
            && (ev != "BIRT" && ev != "DEAT" ==> r.roster == m.roster))
      && (m.previous[0] == "1" && m.mode == Assembly.InFamily ==>
            var f, g := m.roster.family[m.fam], r.roster.family[m.fam];
            r.roster.individuals == m.roster.individuals
            && (ev == "MARR" ==> g == f.(marr := Some(d)))
            && (ev == "DIV" ==> g == f.(div := Some(d)))
            && (ev != "MARR" && ev != "DIV" ==> r.roster == m.roster))
  {
    assert line[0] != "0";
  }

  // ---------------------------------------------------------------------------
  // Ages
  // ---------------------------------------------------------------------------

  /** Every individual still has the default "NA" age and is alive. */
  ghost predicate Unaged(t: Roster)
  {
    forall k :: k in t.individuals ==> t.individuals[k].age.None? && t.individuals[k].alive
  }

  lemma SetFieldUnaged(t: Roster, mode: Assembly.Mode, idn: string, fam: string, tag: string, arg: string)
    requires mode == Assembly.InIndividual ==> idn in t.individuals
    requires mode == Assembly.InFamily ==> fam in t.family
    requires Unaged(t)
    ensures Unaged(SetField(t, mode, idn, fam, tag, arg))
  {
    var r := SetField(t, mode, idn, fam, tag, arg);
    forall k | k in r.individuals
      ensures r.individuals[k].age.None? && r.individuals[k].alive
    {
      assert k in t.individuals;
    }
  }

  lemma SetDateUnaged(t: Roster, mode: Assembly.Mode, idn: string, fam: string, event: string, d: Date)
    requires mode == Assembly.InIndividual ==> idn in t.individuals
    requires mode == Assembly.InFamily ==> fam in t.family
    requires Unaged(t)
    ensures Unaged(SetDate(t, mode, idn, fam, event, d))
  {
    var r := SetDate(t, mode, idn, fam, event, d);
    forall k | k in r.individuals
      ensures r.individuals[k].age.None? && r.individuals[k].alive
    {
      assert k in t.individuals;
    }
  }

  lemma AnalyzeInfoUnaged(t: Roster, line: Assembly.Line, previous: seq<string>, idn: string, fam: string, mode: Assembly.Mode)
    requires mode == Assembly.InIndividual ==> idn in t.individuals
    requires mode == Assembly.InFamily ==> fam in t.family
    requires Unaged(t)
    ensures AnalyzeInfo(t, line, previous, idn, fam, mode).Ok? ==> Unaged(AnalyzeInfo(t, line, previous, idn, fam, mode).value)
  {
    if |line| == 3 {
      SetFieldUnaged(t, mode, idn, fam, line[1], RemoveAt(line[2]));
      if |previous| == 2 && ParseDate(line[2]).Some? {
        SetDateUnaged(t, mode, idn, fam, previous[1], ParseDate(line[2]).value);
      }
    }
  }

  lemma StepUnaged(m: Machine, line: Assembly.Line)
    requires m.Valid() && Unaged(m.roster)
    ensures Step(m, line).Ok? ==> Unaged(Step(m, line).value.roster)
  {
    if m.mode != Assembly.Idle {
      AnalyzeInfoUnaged(m.roster, line, m.previous, m.indiv, m.fam, m.mode);
    }
  }

  lemma {:induction false} RunUnaged(m: Machine, lines: seq<Assembly.Line>)
    requires m.Valid() && Unaged(m.roster)
    ensures Run(m, lines).Ok? ==> Unaged(Run(m, lines).value.roster)
    decreases |lines|
  {
    if lines != [] {
      StepUnaged(m, lines[0]);
      if Step(m, lines[0]).Ok? {
        RunUnaged(Step(m, lines[0]).value, lines[1..]);
      }
    }
  }

  /** Without printing the tables no age is ever computed: every individual
      keeps the "NA" age and stays alive, dead or not. */
  lemma AgesOnlyWhenPrinting(lines: seq<Assembly.Line>, today: Date)
    ensures Analyze(lines, today, false).Ok? ==> Unaged(Analyze(lines, today, false).value)
  {
    RunUnaged(Start, lines);
  }

  /** What `update_info` leaves in a record that has a birth date. */
  predicate Informed(q: Individual, p: Individual, today: Date)
  {
    p.birt.Some?
    && q == p.(alive := p.deat.None?,
               age := Some(if p.deat.None? then today.year - p.birt.value.year
                           else p.deat.value.year - p.birt.value.year))
  }

  /** The printing loop ages exactly the listed individuals, and fails
      exactly when one of them has no birth date. */
  lemma {:induction false} UpdateInfosMeaning(t: Roster, today: Date, ids: seq<string>)
    requires Distinct(ids)
    requires forall i :: 0 <= i < |ids| ==> ids[i] in t.individuals
    ensures UpdateInfos(t, today, ids).Ok? <==> forall i :: 0 <= i < |ids| ==> t.individuals[ids[i]].birt.Some?
    ensures UpdateInfos(t, today, ids).Ok? ==>
      var r := UpdateInfos(t, today, ids).value;
      forall k :: k in t.individuals ==>
        if k in ids then Informed(r.individuals[k], t.individuals[k], today) else r.individuals[k] == t.individuals[k]
    decreases |ids|
  {
    if ids != [] {
      var id := ids[0];
      if UpdateInfo(t.individuals[id], today).Ok? {
        var p := UpdateInfo(t.individuals[id], today).value;
        var t1 := t.(individuals := t.individuals[id := p]);
        assert forall i :: 0 <= i < |ids[1..]| ==> ids[1..][i] != id;
        UpdateInfosMeaning(t1, today, ids[1..]);
        assert forall i :: 0 <= i < |ids[1..]| ==> t1.individuals[ids[1..][i]] == t.individuals[ids[1..][i]];
        if UpdateInfos(t, today, ids).Ok? {
          var r := UpdateInfos(t, today, ids).value;
          forall k | k in t.individuals
            ensures if k in ids then Informed(r.individuals[k], t.individuals[k], today) else r.individuals[k] == t.individuals[k]
          {
            if k == id {
              assert k !in ids[1..];
            } else if k in ids {
              assert k in ids[1..];
            }
          }
        }
      }
    }
  }

  /** Printing the tables fails exactly when some individual has no birth
      date; otherwise every individual is aged and alive says whether there
      is no death date. */
  lemma AnalyzePrinted(lines: seq<Assembly.Line>, today: Date)
    ensures Analyze(lines, today, true).Ok? <==>
      Run(Start, lines).Ok?
      && forall k :: k in Run(Start, lines).value.roster.individuals ==> Run(Start, lines).value.roster.individuals[k].birt.Some?
    ensures Analyze(lines, today, true).Ok? ==>
      var t, r := Run(Start, lines).value.roster, Analyze(lines, today, true).value;
      SameKeys(t, r) && r.family == t.family
      && forall k :: k in r.individuals ==> Informed(r.individuals[k], t.individuals[k], today)
  {
    if Run(Start, lines).Ok? {
      var t := Run(Start, lines).value.roster;
      assert forall i :: 0 <= i < |t.indOrder| ==> t.indOrder[i] in t.individuals;
      UpdateInfosMeaning(t, today, t.indOrder);
      if forall i :: 0 <= i < |t.indOrder| ==> t.individuals[t.indOrder[i]].birt.Some? {
        forall k | k in t.individuals
          ensures t.individuals[k].birt.Some?
        {
          var i :| 0 <= i < |t.indOrder| && t.indOrder[i] == k;
        }
      }
    }
  }
}

/** Properties of the state machine of `AnalyzeGEDCOM.analyze`. */
module AssemblyFacts {
  import opened Wrappers
  import opened Strings
  import opened Dates
  import opened Messages
  import opened Records
  import opened Assembly

  /** A declaration of an id that is already taken adds exactly one US22
      message and keeps the existing record; later lines go to that record.
      A fresh id gets a default record at the end of the order. */
  lemma DeclareIndividualLine(m: Machine, line: Line)
    requires m.Valid()
    requires |line| == 3 && line[0] == "0" && !IsHeader(line[1]) && line[2] == "INDI"
    ensures var id := RemoveAt(line[1]);
      Step(m, line).Ok?
      && var r := Step(m, line).value;
      r.mode == InIndividual && r.indiv == id && r.previous == m.previous
      && r.tables.fams == m.tables.fams && r.tables.famOrder == m.tables.famOrder
      && (id in m.tables.inds ==>
            r.tables == m.tables && r.errors == m.errors + [DuplicateIndividual(id)])
      && (id !in m.tables.inds ==>
            r.errors == m.errors && r.tables.inds == m.tables.inds[id := NewIndi]
            && r.tables.indOrder == m.tables.indOrder + [id])
  {
  }

  lemma DeclareFamilyLine(m: Machine, line: Line)
    requires m.Valid()
    requires |line| == 3 && line[0] == "0" && !IsHeader(line[1]) && line[2] != "INDI" && line[2] == "FAM"
    ensures var id := RemoveAt(line[1]);
      Step(m, line).Ok?
      && var r := Step(m, line).value;
      r.mode == InFamily && r.fam == id && r.previous == m.previous
      && r.tables.inds == m.tables.inds && r.tables.indOrder == m.tables.indOrder
      && (id in m.tables.fams ==>
            r.tables == m.tables && r.errors == m.errors + [DuplicateFamily(id)])
      && (id !in m.tables.fams ==>
            r.errors == m.errors && r.tables.fams == m.tables.fams[id := NewFam]
            && r.tables.famOrder == m.tables.famOrder + [id])
  {
  }

  /** `0 HEAD`, `0 TRLR` and `0 NOTE` lines change nothing at all, not even
      the previous line. */
  lemma HeaderLine(m: Machine, line: Line)
    requires m.Valid()
    requires |line| >= 2 && line[0] == "0" && IsHeader(line[1])
    ensures Step(m, line) == Ok(m)
  {
  }

  /** A level-0 line that is not a header needs three fields. */
  lemma ShortLevelZeroLine(m: Machine, line: Line)
    requires m.Valid()
    requires line[0] == "0" && (|line| == 1 || (|line| == 2 && !IsHeader(line[1])))
    ensures Step(m, line) == Err(ShortLine)
  {
  }

  /** Any other two-field line, such as `1 BIRT`, changes no record: it only
      becomes the previous line. Lines before the first record change no
      record either. */
  lemma PassiveLine(m: Machine, line: Line)
    requires m.Valid()
    requires line[0] != "0"
    requires |line| == 2 || m.mode == Idle
    ensures Step(m, line) == Ok(m.(previous := line))
  {
  }

  /** All records other than the one named. */
  predicate OthersUnchanged(a: Tables, b: Tables, mode: Mode, idn: string, fam: string)
  {
    (forall k :: k in a.inds && (mode != InIndividual || k != idn) ==> k in b.inds && b.inds[k] == a.inds[k])
    && (forall k :: k in a.fams && (mode != InFamily || k != fam) ==> k in b.fams && b.fams[k] == a.fams[k])
  }

  /** A level-1 field line changes only the current record: `FAMS` and
      `CHIL` add the argument to a set, `NAME`, `SEX`, `FAMC`, `HUSB` and
      `WIFE` overwrite a field, always with every `@` removed; a tag that
      belongs to the other kind of record changes nothing. */
  lemma FieldLine(m: Machine, line: Line)
    requires m.Valid() && m.mode != Idle
    requires |line| == 3 && ParseInt(line[0]) == Some(1) && IsFieldTag(line[1])
    ensures Step(m, line).Ok?
    ensures var r := Step(m, line).value;
      var tag, arg := line[1], RemoveAt(line[2]);
      r == m.(tables := r.tables, previous := line)
      && SameIds(m.tables, r.tables)
      && OthersUnchanged(m.tables, r.tables, m.mode, m.indiv, m.fam)
      && (m.mode == InIndividual ==>
            var p, q := m.tables.inds[m.indiv], r.tables.inds[m.indiv];
            r.tables.fams == m.tables.fams
            && (tag == "FAMS" ==> q == p.(fams := p.fams + {arg}))
            && (tag == "NAME" ==> q == p.(name := Some(arg)))
            && (tag == "SEX" ==> q == p.(sex := Some(arg)))
            && (tag == "FAMC" ==> q == p.(famc := Some(arg)))
            && (tag == "HUSB" || tag == "WIFE" || tag == "CHIL" ==> r.tables == m.tables))
      && (m.mode == InFamily ==>
            var f, g := m.tables.fams[m.fam], r.tables.fams[m.fam];
            r.tables.inds == m.tables.inds
            && (tag == "HUSB" ==> g == f.(husb := Some(arg)))
            && (tag == "WIFE" ==> g == f.(wife := Some(arg)))
            && (tag == "CHIL" ==> g == f.(chil := f.chil + {arg}))
            && (tag == "NAME" || tag == "SEX" || tag == "FAMC" || tag == "FAMS" ==> r.tables == m.tables))
  {
    assert line[0] != "0";
  }

  /** A `2 DATE` line inside a record: the previous line must have exactly
      two fields and the date must parse, whatever the previous tag; the date
      is stored only under `1 BIRT`/`1 DEAT` (individual) or `1 MARR`/`1 DIV`
      (family), and otherwise nothing changes. */
  lemma DateLine(m: Machine, line: Line)
    requires m.Valid() && m.mode != Idle
    requires |line| == 3 && ParseInt(line[0]) == Some(2) && line[1] == "DATE"
    ensures |m.previous| != 2 ==> Step(m, line) == Err(Unreadable)
    ensures ParseDate(line[2]).None? ==> Step(m, line) == Err(Unreadable)
    ensures |m.previous| == 2 && ParseDate(line[2]).Some? ==>
      Step(m, line).Ok?
      && var r, d, ev := Step(m, line).value, ParseDate(line[2]).value, m.previous[1];
      r == m.(tables := r.tables, previous := line)
      && SameIds(m.tables, r.tables)
      && OthersUnchanged(m.tables, r.tables, m.mode, m.indiv, m.fam)
      && (m.previous[0] != "1" || !IsEventTag(ev) ==> r.tables == m.tables)
      && (m.previous[0] == "1" && m.mode == InIndividual ==>
            var p, q := m.tables.inds[m.indiv], r.tables.inds[m.indiv];
            r.tables.fams == m.tables.fams
            && (ev == "BIRT" ==> q == p.(birt := Some(d)))
            && (ev == "DEAT" ==> q == p.(deat := Some(d)))
            && (ev != "BIRT" && ev != "DEAT" ==> r.tables == m.tables))
      && (m.previous[0] == "1" && m.mode == InFamily ==>
            var f, g := m.tables.fams[m.fam], r.tables.fams[m.fam];
            r.tables.inds == m.tables.inds
            && (ev == "MARR" ==> g == f.(marr := Some(d)))
            && (ev == "DIV" ==> g == f.(div := Some(d)))
            && (ev != "MARR" && ev != "DIV" ==> r.tables == m.tables))
  {
    assert line[0] != "0";
  }

  // ---------------------------------------------------------------------------
  // Whole runs
  // ---------------------------------------------------------------------------

  /** No field value of the record contains `@`. */
  predicate IndiNoAt(p: IndiRec)
  {
    (p.name.Some? ==> '@' !in p.name.value)
    && (p.sex.Some? ==> '@' !in p.sex.value)
    && (p.famc.Some? ==> '@' !in p.famc.value)
    && (forall s :: s in p.fams ==> '@' !in s)
  }

  predicate FamNoAt(f: FamRec)
  {
    (f.husb.Some? ==> '@' !in f.husb.value)
    && (f.wife.Some? ==> '@' !in f.wife.value)
    && (forall s :: s in f.chil ==> '@' !in s)
  }

  /** No stored id or field value contains `@`. */
  ghost predicate NoAt(t: Tables)
  {
    (forall k :: k in t.inds ==> '@' !in k && IndiNoAt(t.inds[k]))
    && (forall k :: k in t.fams ==> '@' !in k && FamNoAt(t.fams[k]))
  }

  lemma IndiUpdateNoAt(t: Tables, idn: string, q: IndiRec)
    requires NoAt(t) && idn in t.inds && IndiNoAt(q)
    ensures NoAt(t.(inds := t.inds[idn := q]))
  {
  }

  lemma FamUpdateNoAt(t: Tables, fam: string, g: FamRec)
    requires NoAt(t) && fam in t.fams && FamNoAt(g)
    ensures NoAt(t.(fams := t.fams[fam := g]))
  {
  }

  lemma SetFieldNoAt(t: Tables, mode: Mode, idn: string, fam: string, tag: string, arg: string)
    requires mode == InIndividual ==> idn in t.inds
    requires mode == InFamily ==> fam in t.fams
    requires NoAt(t) && '@' !in arg
    ensures NoAt(SetField(t, mode, idn, fam, tag, arg))
  {
    if mode == InIndividual {
      var p := t.inds[idn];
      if tag == "FAMS" {
        IndiUpdateNoAt(t, idn, p.(fams := p.fams + {arg}));
      } else if tag == "NAME" {
        IndiUpdateNoAt(t, idn, p.(name := Some(arg)));
      } else if tag == "SEX" {
        IndiUpdateNoAt(t, idn, p.(sex := Some(arg)));
      } else if tag == "FAMC" {
        IndiUpdateNoAt(t, idn, p.(famc := Some(arg)));
      }
    } else if mode == InFamily {
      var f := t.fams[fam];
      if tag == "HUSB" {
        FamUpdateNoAt(t, fam, f.(husb := Some(arg)));
      } else if tag == "WIFE" {
        FamUpdateNoAt(t, fam, f.(wife := Some(arg)));
      } else if tag == "CHIL" {
        FamUpdateNoAt(t, fam, f.(chil := f.chil + {arg}));
      }
    }
  }

  lemma SetDateNoAt(t: Tables, mode: Mode, idn: string, fam: string, event: string, d: Date)
    requires mode == InIndividual ==> idn in t.inds
    requires mode == InFamily ==> fam in t.fams
    requires NoAt(t)
    ensures NoAt(SetDate(t, mode, idn, fam, event, d))
  {
    var r := SetDate(t, mode, idn, fam, event, d);
    if mode == InIndividual && r != t {
      IndiUpdateNoAt(t, idn, r.inds[idn]);
      assert r == t.(inds := t.inds[idn := r.inds[idn]]);
    } else if mode == InFamily && r != t {
      FamUpdateNoAt(t, fam, r.fams[fam]);
      assert r == t.(fams := t.fams[fam := r.fams[fam]]);
    }
  }

  lemma AnalyzeInfoNoAt(m: Machine, line: Line)
    requires m.Valid() && NoAt(m.tables) && m.mode != Idle
    ensures var r := AnalyzeInfo(m.tables, line, m.previous, m.indiv, m.fam, m.mode);
      r.Ok? ==> NoAt(r.value)
  {
    if |line| == 3 {
      var level := ParseInt(line[0]);
      if level.Some? && level.value == 1 && IsFieldTag(line[1]) {
        SetFieldNoAt(m.tables, m.mode, m.indiv, m.fam, line[1], RemoveAt(line[2]));
      } else if level.Some? && level.value == 2 && line[1] == "DATE" && |m.previous| == 2 && ParseDate(line[2]).Some? {
        SetDateNoAt(m.tables, m.mode, m.indiv, m.fam, m.previous[1], ParseDate(line[2]).value);
      }
    }
  }

  lemma StepNoAt(m: Machine, line: Line)
    requires m.Valid() && NoAt(m.tables)
    ensures Step(m, line).Ok? ==> NoAt(Step(m, line).value.tables)
  {
    if line[0] == "0" && |line| == 3 && !IsHeader(line[1]) && (line[2] == "INDI" || line[2] == "FAM") {
    } else if m.mode != Idle {
      AnalyzeInfoNoAt(m, line);
    }
  }

  /** Every id and every field value the analysis stores has had all `@`
      removed. */
  lemma {:induction false} RunNoAt(m: Machine, lines: seq<Line>)
    requires m.Valid() && NoAt(m.tables)
    ensures Run(m, lines).Ok? ==> NoAt(Run(m, lines).value.tables)
    decreases |lines|
  {
    if lines != [] {
      StepNoAt(m, lines[0]);
      if Step(m, lines[0]).Ok? {
        RunNoAt(Step(m, lines[0]).value, lines[1..]);
      }
    }
  }

  /** A US22 message. */
  predicate IsDuplicate(e: Message)
  {
    e.DuplicateIndividual? || e.DuplicateFamily?
  }

  /** `b` is `a` followed by zero or more elements. */
  ghost predicate Extends<T>(b: seq<T>, a: seq<T>)
  {
    |a| <= |b| && b[..|a|] == a
  }

  lemma StepGrows(m: Machine, line: Line)
    requires m.Valid()
    ensures Step(m, line).Ok? ==>
      var r := Step(m, line).value;
      (r.errors == m.errors || (exists e :: IsDuplicate(e) && r.errors == m.errors + [e]))
      && Extends(r.tables.indOrder, m.tables.indOrder) && Extends(r.tables.famOrder, m.tables.famOrder)
  {
    if Step(m, line).Ok? {
      var r := Step(m, line).value;
      var t := m.tables;
      if line[0] == "0" && IsHeader(line[1]) {
      } else if line[0] == "0" && line[2] == "INDI" {
        var id := RemoveAt(line[1]);
        if id in t.inds {
          assert IsDuplicate(DuplicateIndividual(id)) && r.errors == m.errors + [DuplicateIndividual(id)];
        } else {
          assert (t.indOrder + [id])[..|t.indOrder|] == t.indOrder;
        }
      } else if line[0] == "0" && line[2] == "FAM" {
        var id := RemoveAt(line[1]);
        if id in t.fams {
          assert IsDuplicate(DuplicateFamily(id)) && r.errors == m.errors + [DuplicateFamily(id)];
        } else {
          assert (t.famOrder + [id])[..|t.famOrder|] == t.famOrder;
        }
      } else {
        assert r.tables.indOrder == t.indOrder && r.tables.famOrder == t.famOrder;
      }
    }
  }

  lemma ExtendsTrans<T>(c: seq<T>, b: seq<T>, a: seq<T>)
    requires Extends(c, b) && Extends(b, a)
    ensures Extends(c, a)
  {
    assert c[..|a|] == c[..|b|][..|a|];
  }

  /** The only messages the analysis reports are US22 messages, appended in
      the order the lines arrive; records are never removed and ids keep
      their first-declaration order. */
  lemma {:induction false} RunGrows(m: Machine, lines: seq<Line>)
    requires m.Valid()
    ensures Run(m, lines).Ok? ==>
      var r := Run(m, lines).value;
      Extends(r.errors, m.errors)
      && (forall i :: |m.errors| <= i < |r.errors| ==> IsDuplicate(r.errors[i]))
      && Extends(r.tables.indOrder, m.tables.indOrder) && Extends(r.tables.famOrder, m.tables.famOrder)
    decreases |lines|
  {
    if lines != [] && Run(m, lines).Ok? {
      var m1 := Step(m, lines[0]).value;
      StepGrows(m, lines[0]);
      RunGrows(m1, lines[1..]);
      var r := Run(m1, lines[1..]).value;
      assert Extends(m1.errors, m.errors) && forall i :: |m.errors| <= i < |m1.errors| ==> IsDuplicate(m1.errors[i]);
      ExtendsTrans(r.errors, m1.errors, m.errors);
      ExtendsTrans(r.tables.indOrder, m1.tables.indOrder, m.tables.indOrder);
      ExtendsTrans(r.tables.famOrder, m1.tables.famOrder, m.tables.famOrder);
      forall i | |m.errors| <= i < |r.errors|
        ensures IsDuplicate(r.errors[i])
      {
        if i < |m1.errors| {
          assert r.errors[i] == r.errors[..|m1.errors|][i];
        }
      }
    }
  }

  // ---------------------------------------------------------------------------
  // Ages
  // ---------------------------------------------------------------------------

  /** What `update_age` leaves in a record that has a birth date. */
  predicate AgedAs(q: IndiRec, p: IndiRec, today: Date)
  {
    p.birt.Some?
    && q == p.(alive := p.deat.None?,
               age := Some(if p.deat.None? then today.year - p.birt.value.year
                           else p.deat.value.year - p.birt.value.year))
  }

  lemma UpdateAgeMeaning(p: IndiRec, today: Date)
    ensures UpdateAge(p, today).Ok? <==> p.birt.Some?
    ensures UpdateAge(p, today).Ok? ==> AgedAs(UpdateAge(p, today).value, p, today)
  {
  }

  /** The final loop ages exactly the listed individuals, and fails exactly
      when one of them has no birth date. */
  lemma {:induction false} UpdateAgesMeaning(t: Tables, today: Date, ids: seq<string>)
    requires Distinct(ids)
    requires forall i :: 0 <= i < |ids| ==> ids[i] in t.inds
    ensures UpdateAges(t, today, ids).Ok? <==> forall i :: 0 <= i < |ids| ==> t.inds[ids[i]].birt.Some?
    ensures UpdateAges(t, today, ids).Ok? ==>
      var r := UpdateAges(t, today, ids).value;
      SameIds(t, r) && r.fams == t.fams
      && forall k :: k in t.inds ==>
           if k in ids then AgedAs(r.inds[k], t.inds[k], today) else r.inds[k] == t.inds[k]
    decreases |ids|
  {
    if ids != [] {
      var id := ids[0];
      if UpdateAge(t.inds[id], today).Ok? {
        var p := UpdateAge(t.inds[id], today).value;
        var t1 := t.(inds := t.inds[id := p]);
        assert forall i :: 0 <= i < |ids[1..]| ==> ids[1..][i] != id;
        UpdateAgesMeaning(t1, today, ids[1..]);
        assert forall i :: 0 <= i < |ids[1..]| ==> t1.inds[ids[1..][i]] == t.inds[ids[1..][i]];
        if UpdateAges(t, today, ids).Ok? {
          var r := UpdateAges(t, today, ids).value;
          forall k | k in t.inds
            ensures if k in ids then AgedAs(r.inds[k], t.inds[k], today) else r.inds[k] == t.inds[k]
          {
            if k == id {
              assert k !in ids[1..];
            } else if k in ids {
              assert k in ids[1..];
            }
          }
        }
      } else {
        assert !(t.inds[ids[0]].birt.Some?);
      }
    }
  }

  /** The final loop over all individuals: it fails exactly when one has no
      birth date, and otherwise leaves every individual aged. */
  lemma AgeAllMeaning(t: Tables, today: Date)
    requires t.Valid()
    ensures forall i :: 0 <= i < |t.indOrder| ==> t.indOrder[i] in t.inds
    ensures UpdateAges(t, today, t.indOrder).Ok? <==> forall k :: k in t.inds ==> t.inds[k].birt.Some?
    ensures UpdateAges(t, today, t.indOrder).Ok? ==>
      var r := UpdateAges(t, today, t.indOrder).value;
      r.Valid() && forall k :: k in r.inds ==> k in t.inds && AgedAs(r.inds[k], t.inds[k], today)
  {
    assert forall i :: 0 <= i < |t.indOrder| ==> t.indOrder[i] in t.inds;
    UpdateAgesMeaning(t, today, t.indOrder);
    if UpdateAges(t, today, t.indOrder).Ok? {
      var r := UpdateAges(t, today, t.indOrder).value;
      SameIdsValid(t, r);
      forall k | k in t.inds
        ensures t.inds[k].birt.Some?
      {
        var i :| 0 <= i < |t.indOrder| && t.indOrder[i] == k;
      }
    } else {
      var i :| 0 <= i < |t.indOrder| && t.inds[t.indOrder[i]].birt.None?;
      assert t.indOrder[i] in t.inds;
    }
  }

  /** After a successful analysis every individual has a birth date, `alive`
      says whether there is no death date, and `age` is the year difference to
      the death or, for the living, to today. */
  lemma AnalyzeAges(lines: seq<Line>, today: Date)
    ensures Analyze(lines, today).Ok? ==>
      var t := Analyze(lines, today).value.0;
      t.Valid()
      && forall k :: k in t.inds ==>
           var p := t.inds[k];
           p.birt.Some? && p.alive == p.deat.None?
           && p.age == Some(if p.alive then today.year - p.birt.value.year
                            else p.deat.value.year - p.birt.value.year)
  {
    if Analyze(lines, today).Ok? {
      AgeAllMeaning(Run(Start, lines).value.tables, today);
    }
  }

  /** The analysis fails for want of a birth date exactly when the lines
      leave some individual without one. */
  lemma AnalyzeMissingBirth(lines: seq<Line>, today: Date)
    requires Run(Start, lines).Ok?
    ensures Analyze(lines, today) == Err(NoBirthDate) <==>
      exists k :: k in Run(Start, lines).value.tables.inds && Run(Start, lines).value.tables.inds[k].birt.None?
  {
    var m := Run(Start, lines).value;
    AgeAllMeaning(m.tables, today);
    if UpdateAges(m.tables, today, m.tables.indOrder).Ok? {
      assert Analyze(lines, today).Ok?;
    } else {
      assert Analyze(lines, today) == Err(NoBirthDate);
    }
  }
}

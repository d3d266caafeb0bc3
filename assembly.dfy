/** What `AnalyzeGEDCOM.analyze` and `analyze_info` compute, as a state
    machine over the lines of a GEDCOM file, each line already split by
    `line.strip().split(" ", 2)`. The machine's state is the two tables, the
    US22 messages found so far, the mode (`current_type`), the current
    individual and family ids and the previous line. An exception the Python
    code raises ends the run with an `Abort`. */
module Assembly {
  import opened Wrappers
  import opened Strings
  import opened Dates
  import opened Messages
  import opened Records

  /** A line split on at most two spaces: one to three fields. */
  type Line = l: seq<string> | 1 <= |l| <= 3 witness ["0"]

  /** `current_type`: 0 before any record, 1 in an individual, 2 in a family. */
  datatype Mode = Idle | InIndividual | InFamily

  /** The exceptions that end an analysis. */
  datatype Abort =
    | ShortLine    // IndexError: `line[1]` or `line[2]` of a level-0 line that is too short
    | Unreadable   // ValueError: an unpacking, `int()` or `strptime` that fails
    | NoBirthDate  // AttributeError: `update_age` of an individual with no birth date

  datatype Machine = Machine(
    tables: Tables,
    errors: seq<Message>,
    mode: Mode,
    indiv: string,
    fam: string,
    previous: seq<string>)
  {
    /** The tables are well formed and the current record exists. */
    ghost predicate Valid()
    {
      tables.Valid()
      && (mode == InIndividual ==> indiv in tables.inds)
      && (mode == InFamily ==> fam in tables.fams)
    }
  }

  const Start := Machine(EmptyTables, [], Idle, "", "", [])

  predicate IsHeader(tag: string)
  {
    tag == "HEAD" || tag == "TRLR" || tag == "NOTE"
  }

  predicate IsFieldTag(tag: string)
  {
    tag == "NAME" || tag == "SEX" || tag == "FAMC" || tag == "FAMS"
    || tag == "HUSB" || tag == "WIFE" || tag == "CHIL"
  }

  predicate IsEventTag(tag: string)
  {
    tag == "BIRT" || tag == "DEAT" || tag == "MARR" || tag == "DIV"
  }

  /** `0 @id@ INDI`: a new default individual, or a US22 message when the id
      is taken. Either way later lines go to the individual with this id. */
  function DeclareIndividual(m: Machine, id: string): (r: Machine)
    requires m.Valid()
    ensures r.Valid()
  {
    var m1 := m.(mode := InIndividual, indiv := id);
    if id in m.tables.inds then m1.(errors := m.errors + [DuplicateIndividual(id)])
    else m1.(tables := m.tables.(inds := m.tables.inds[id := NewIndi], indOrder := m.tables.indOrder + [id]))
  }

  /** `0 @id@ FAM`, the same for families. */
  function DeclareFamily(m: Machine, id: string): (r: Machine)
    requires m.Valid()
    ensures r.Valid()
  {
    var m1 := m.(mode := InFamily, fam := id);
    if id in m.tables.fams then m1.(errors := m.errors + [DuplicateFamily(id)])
    else m1.(tables := m.tables.(fams := m.tables.fams[id := NewFam], famOrder := m.tables.famOrder + [id]))
  }

  /** A level-1 field line with its argument already stripped of `@`. */
  function SetField(t: Tables, mode: Mode, idn: string, fam: string, tag: string, arg: string): (r: Tables)
    requires mode == InIndividual ==> idn in t.inds
    requires mode == InFamily ==> fam in t.fams
    ensures SameIds(t, r)
  {
    if mode == InIndividual then
      var p := t.inds[idn];
      if tag == "FAMS" then t.(inds := t.inds[idn := p.(fams := p.fams + {arg})])
      else if tag == "NAME" then t.(inds := t.inds[idn := p.(name := Some(arg))])
      else if tag == "SEX" then t.(inds := t.inds[idn := p.(sex := Some(arg))])
      else if tag == "FAMC" then t.(inds := t.inds[idn := p.(famc := Some(arg))])
      else t
    else if mode == InFamily then
      var f := t.fams[fam];
      if tag == "HUSB" then t.(fams := t.fams[fam := f.(husb := Some(arg))])
      else if tag == "WIFE" then t.(fams := t.fams[fam := f.(wife := Some(arg))])
      else if tag == "CHIL" then t.(fams := t.fams[fam := f.(chil := f.chil + {arg})])
      else t
    else t
  }

  /** A date under a `1 BIRT`/`DEAT`/`MARR`/`DIV` line. */
  function SetDate(t: Tables, mode: Mode, idn: string, fam: string, event: string, d: Date): (r: Tables)
    requires mode == InIndividual ==> idn in t.inds
    requires mode == InFamily ==> fam in t.fams
    ensures SameIds(t, r)
  {
    if mode == InIndividual then
      var p := t.inds[idn];
      if event == "BIRT" then t.(inds := t.inds[idn := p.(birt := Some(d))])
      else if event == "DEAT" then t.(inds := t.inds[idn := p.(deat := Some(d))])
      else t
    else if mode == InFamily then
      var f := t.fams[fam];
      if event == "MARR" then t.(fams := t.fams[fam := f.(marr := Some(d))])
      else if event == "DIV" then t.(fams := t.fams[fam := f.(div := Some(d))])
      else t
    else t
  }

  /** `analyze_info`: a line inside a record. Two-field lines change
      nothing; a one-field line cannot be unpacked; the level must read as an
      integer; a `2 DATE` line unpacks the previous line and parses its date
      before looking at the previous tag. */
  function AnalyzeInfo(t: Tables, line: Line, previous: seq<string>, idn: string, fam: string, mode: Mode): (r: Result<Tables, Abort>)
    requires mode == InIndividual ==> idn in t.inds
    requires mode == InFamily ==> fam in t.fams
    ensures r.Ok? ==> SameIds(t, r.value)
  {
    if |line| == 2 then Ok(t)
    else if |line| == 1 then Err(Unreadable)
    else
      var level := ParseInt(line[0]);
      if level.None? then Err(Unreadable)
      else if level.value == 1 && IsFieldTag(line[1]) then
        Ok(SetField(t, mode, idn, fam, line[1], RemoveAt(line[2])))
      else if level.value == 2 && line[1] == "DATE" then
        if |previous| != 2 then Err(Unreadable)
        else
          var d := ParseDate(line[2]);
          if d.None? then Err(Unreadable)
          else if previous[0] == "1" && IsEventTag(previous[1]) then
            Ok(SetDate(t, mode, idn, fam, previous[1], d.value))
          else Ok(t)
      else Ok(t)
  }

  /** One pass of the loop in `analyze`. */
  function Step(m: Machine, line: Line): (r: Result<Machine, Abort>)
    requires m.Valid()
    ensures r.Ok? ==> r.value.Valid()
  {
    if line[0] == "0" && |line| < 2 then Err(ShortLine)
    else if line[0] == "0" && IsHeader(line[1]) then Ok(m)
    else if line[0] == "0" && |line| < 3 then Err(ShortLine)
    else if line[0] == "0" && line[2] == "INDI" then
      Ok(DeclareIndividual(m, RemoveAt(line[1])))
    else if line[0] == "0" && line[2] == "FAM" then
      Ok(DeclareFamily(m, RemoveAt(line[1])))
    else
      var t :- if m.mode == Idle then Ok(m.tables)
               else AnalyzeInfo(m.tables, line, m.previous, m.indiv, m.fam, m.mode);
      SameIdsValid(m.tables, t);
      Ok(m.(tables := t, previous := line))
  }

  /** The loop in `analyze`, from a given state on. `Project3.Run` is the
      same loop over Project3.py's own machine and `Step`; the two are kept
      apart because each keeps its own machine invariant, `Valid`. */
  function Run(m: Machine, lines: seq<Line>): (r: Result<Machine, Abort>)
    requires m.Valid()
    ensures r.Ok? ==> r.value.Valid()
    decreases |lines|
  {
    if lines == [] then Ok(m)
    else
      var m1 :- Step(m, lines[0]);
      Run(m1, lines[1..])
  }

  /** `Individual.update_age`: `alive` is whether there is no death date,
      `age` the year difference to the death or to today; no birth date
      raises. */
  function UpdateAge(p: IndiRec, today: Date): (r: Result<IndiRec, Abort>)
    ensures r.Ok? <==> p.birt.Some?
    ensures r.Err? ==> r.error == NoBirthDate
    ensures r.Ok? ==> r.value.(alive := p.alive, age := p.age) == p && r.value.age.Some?
  {
    if p.birt.None? then Err(NoBirthDate)
    else
      var alive := p.deat.None?;
      var age := if alive then today.year - p.birt.value.year else p.deat.value.year - p.birt.value.year;
      Ok(p.(alive := alive, age := Some(age)))
  }

  /** The final loop of `analyze` over the individuals listed in `ids`. */
  function UpdateAges(t: Tables, today: Date, ids: seq<string>): (r: Result<Tables, Abort>)
    requires forall i :: 0 <= i < |ids| ==> ids[i] in t.inds
    ensures r.Err? ==> r.error == NoBirthDate
    decreases |ids|
  {
    if ids == [] then Ok(t)
    else
      var p :- UpdateAge(t.inds[ids[0]], today);
      UpdateAges(t.(inds := t.inds[ids[0] := p]), today, ids[1..])
  }

  /** `analyze`: the tables and the US22 messages, or the exception. */
  function Analyze(lines: seq<Line>, today: Date): (r: Result<(Tables, seq<Message>), Abort>)
    ensures r.Ok? ==> Run(Start, lines).Ok? && r.value.1 == Run(Start, lines).value.errors
    ensures r.Err? && Run(Start, lines).Ok? ==> r.error == NoBirthDate
  {
    var m :- Run(Start, lines);
    var t :- UpdateAges(m.tables, today, m.tables.indOrder);
    Ok((t, m.errors))
  }
}

/** What `AnalyzeGEDCOM.analyze` and `analyze_info` of Project3.py, the
    earlier revision of the assembler, compute: the same loop over split
    lines as `Assembly`, but with fields that default to "NA", no check for
    ids declared twice, and ages computed only when the tables are
    printed. */
module Project3 {
  import opened Wrappers
  import opened Strings
  import opened Dates
  import opened Records
  import Assembly

  const NA := "NA"

  /** `Individual`: `name`, `sex` and `famc` are strings that start as
      "NA"; `age` is `None` while it is still "NA". */
  datatype Individual = Individual(
    name: string,
    sex: string,
    birt: Option<Date>,
    age: Option<int>,
    alive: bool,
    deat: Option<Date>,
    famc: string,
    fams: set<string>)

  /** `Family`: `husb` and `wife` start as "NA", `marr` and `div` are `None`
      while they are still "NA". */
  datatype Family = Family(
    marr: Option<Date>,
    div: Option<Date>,
    husb: string,
    wife: string,
    chil: set<string>)

  /** `Individual()`. */
  const NewIndividual := Individual(NA, NA, None, None, true, None, NA, {})

  /** `Family()`. */
  const NewFamily := Family(None, None, NA, NA, {})

  /** The `individuals` and `family` dicts, each with its insertion order. */
  datatype Roster = Roster(
    individuals: map<string, Individual>,
    indOrder: seq<string>,
    family: map<string, Family>,
    famOrder: seq<string>)
  {
    /** Each order lists its dict's keys once each. */
    ghost predicate Valid()
    {
      Distinct(indOrder) && (forall k :: k in individuals <==> k in indOrder)
      && Distinct(famOrder) && (forall k :: k in family <==> k in famOrder)
    }
  }

  const EmptyRoster := Roster(map[], [], map[], [])

  /** The loop's state: the dicts, `current_type`, `indiv`, `fam` and
      `previous_line`. */
  datatype Machine = Machine(
    roster: Roster,
    mode: Assembly.Mode,
    indiv: string,
    fam: string,
    previous: seq<string>)
  {
    /** The dicts are well formed and the current record exists. */
    ghost predicate Valid()
    {
      roster.Valid()
      && (mode == Assembly.InIndividual ==> indiv in roster.individuals)
      && (mode == Assembly.InFamily ==> fam in roster.family)
    }
  }

  const Start := Machine(EmptyRoster, Assembly.Idle, "", "", [])

  /** `0 @id@ INDI`: a default individual under the id, replacing any
      earlier one; a dict keeps the place of a key it already has. */
  function DeclareIndividual(m: Machine, id: string): (r: Machine)
    requires m.Valid()
    ensures r.Valid()
  {
    var t := m.roster;
    var order := if id in t.individuals then t.indOrder else t.indOrder + [id];
    m.(roster := t.(individuals := t.individuals[id := NewIndividual], indOrder := order),
       mode := Assembly.InIndividual, indiv := id)
  }

  /** `0 @id@ FAM`, the same for families. */
  function DeclareFamily(m: Machine, id: string): (r: Machine)
    requires m.Valid()
    ensures r.Valid()
  {
    var t := m.roster;
    var order := if id in t.family then t.famOrder else t.famOrder + [id];
    m.(roster := t.(family := t.family[id := NewFamily], famOrder := order),
       mode := Assembly.InFamily, fam := id)
  }

  /** Same ids in the same order: only record contents differ. */
  predicate SameKeys(a: Roster, b: Roster)
  {
    a.individuals.Keys == b.individuals.Keys && a.indOrder == b.indOrder
    && a.family.Keys == b.family.Keys && a.famOrder == b.famOrder
  }

  /** A level-1 field line with its argument already stripped of `@`. */
  function SetField(t: Roster, mode: Assembly.Mode, idn: string, fam: string, tag: string, arg: string): (r: Roster)
    requires mode == Assembly.InIndividual ==> idn in t.individuals
    requires mode == Assembly.InFamily ==> fam in t.family
    ensures SameKeys(t, r)
  {
    if mode == Assembly.InIndividual then
      var p := t.individuals[idn];
      if tag == "FAMS" then t.(individuals := t.individuals[idn := p.(fams := p.fams + {arg})])
      else if tag == "NAME" then t.(individuals := t.individuals[idn := p.(name := arg)])
      else if tag == "SEX" then t.(individuals := t.individuals[idn := p.(sex := arg)])
      else if tag == "FAMC" then t.(individuals := t.individuals[idn := p.(famc := arg)])
      else t
    else if mode == Assembly.InFamily then
      var f := t.family[fam];
      if tag == "HUSB" then t.(family := t.family[fam := f.(husb := arg)])
      else if tag == "WIFE" then t.(family := t.family[fam := f.(wife := arg)])
      else if tag == "CHIL" then t.(family := t.family[fam := f.(chil := f.chil + {arg})])
      else t
    else t
  }

  /** A date under a `1 BIRT`/`DEAT`/`MARR`/`DIV` line. */
  function SetDate(t: Roster, mode: Assembly.Mode, idn: string, fam: string, event: string, d: Date): (r: Roster)
    requires mode == Assembly.InIndividual ==> idn in t.individuals
    requires mode == Assembly.InFamily ==> fam in t.family
    ensures SameKeys(t, r)
  {
    if mode == Assembly.InIndividual then
      var p := t.individuals[idn];
      if event == "BIRT" then t.(individuals := t.individuals[idn := p.(birt := Some(d))])
      else if event == "DEAT" then t.(individuals := t.individuals[idn := p.(deat := Some(d))])
      else t
    else if mode == Assembly.InFamily then
      var f := t.family[fam];
      if event == "MARR" then t.(family := t.family[fam := f.(marr := Some(d))])
      else if event == "DIV" then t.(family := t.family[fam := f.(div := Some(d))])
      else t
    else t
  }

  /** `analyze_info`: two-field lines change nothing; a one-field line
      cannot be unpacked; the level must read as an integer; a `2 DATE` line
      unpacks the previous line and parses its date before looking at the
      previous tag. */
  function AnalyzeInfo(t: Roster, line: Assembly.Line, previous: seq<string>, idn: string, fam: string, mode: Assembly.Mode): (r: Result<Roster, Assembly.Abort>)
    requires mode == Assembly.InIndividual ==> idn in t.individuals
    requires mode == Assembly.InFamily ==> fam in t.family
    ensures r.Ok? ==> SameKeys(t, r.value)
  {
    if |line| == 2 then Ok(t)
    else if |line| == 1 then Err(Assembly.Unreadable)
    else
      var level := ParseInt(line[0]);
      if level.None? then Err(Assembly.Unreadable)
      else if level.value == 1 && Assembly.IsFieldTag(line[1]) then
        Ok(SetField(t, mode, idn, fam, line[1], RemoveAt(line[2])))
      else if level.value == 2 && line[1] == "DATE" then
        if |previous| != 2 then Err(Assembly.Unreadable)
        else
          var d := ParseDate(line[2]);
          if d.None? then Err(Assembly.Unreadable)
          else if previous[0] == "1" && Assembly.IsEventTag(previous[1]) then
            Ok(SetDate(t, mode, idn, fam, previous[1], d.value))
          else Ok(t)
      else Ok(t)
  }

  lemma SameKeysValid(a: Roster, b: Roster)
    requires a.Valid() && SameKeys(a, b)
    ensures b.Valid()
  {
    assert forall k :: k in b.individuals <==> k in a.individuals;
    assert forall k :: k in b.family <==> k in a.family;
  }

  /** One pass of the loop in `analyze`. */
  function Step(m: Machine, line: Assembly.Line): (r: Result<Machine, Assembly.Abort>)
    requires m.Valid()
    ensures r.Ok? ==> r.value.Valid()
  {
    if line[0] == "0" && |line| < 2 then Err(Assembly.ShortLine)
    else if line[0] == "0" && Assembly.IsHeader(line[1]) then Ok(m)
    else if line[0] == "0" && |line| < 3 then Err(Assembly.ShortLine)
    else if line[0] == "0" && line[2] == "INDI" then
      Ok(DeclareIndividual(m, RemoveAt(line[1])))
    else if line[0] == "0" && line[2] == "FAM" then
      Ok(DeclareFamily(m, RemoveAt(line[1])))
    else
      var t :- if m.mode == Assembly.Idle then Ok(m.roster)
               else AnalyzeInfo(m.roster, line, m.previous, m.indiv, m.fam, m.mode);
      SameKeysValid(m.roster, t);
      Ok(m.(roster := t, previous := line))
  }

  /** The loop in `analyze`, from a given state on: the loop of
      `Assembly.Run`, over this file's machine and `Step`. */
  function Run(m: Machine, lines: seq<Assembly.Line>): (r: Result<Machine, Assembly.Abort>)
    requires m.Valid()
    ensures r.Ok? ==> r.value.Valid()
    decreases |lines|
  {
    if lines == [] then Ok(m)
    else
      var m1 :- Step(m, lines[0]);
      Run(m1, lines[1..])
  }

  /** `Individual.update_info`: `alive` is whether there is no death date,
      `age` the year difference to the death or to today. With no birth
      date `.year` raises `AttributeError`, which the `except TypeError`
      does not catch. */
  function UpdateInfo(p: Individual, today: Date): (r: Result<Individual, Assembly.Abort>)
    ensures r.Ok? <==> p.birt.Some?
    ensures r.Ok? ==> r.value.alive == p.deat.None?
    ensures r.Err? ==> r.error == Assembly.NoBirthDate
  {
    if p.birt.None? then Err(Assembly.NoBirthDate)
    else
      var alive := p.deat.None?;
      var age := if alive then today.year - p.birt.value.year else p.deat.value.year - p.birt.value.year;
      Ok(p.(alive := alive, age := Some(age)))
  }

  /** The loop of `create_pretty_tables` over the individuals listed in
      `ids`, as far as it changes them. */
  function UpdateInfos(t: Roster, today: Date, ids: seq<string>): (r: Result<Roster, Assembly.Abort>)
    requires forall i :: 0 <= i < |ids| ==> ids[i] in t.individuals
    ensures r.Ok? ==> SameKeys(t, r.value) && r.value.family == t.family
    ensures r.Err? ==> r.error == Assembly.NoBirthDate
    decreases |ids|
  {
    if ids == [] then Ok(t)
    else
      var p :- UpdateInfo(t.individuals[ids[0]], today);
      UpdateInfos(t.(individuals := t.individuals[ids[0] := p]), today, ids[1..])
  }

  /** `AnalyzeGEDCOM(file_name, create_tables)`: the dicts after `analyze`,
      and after the `update_info` calls when the tables are printed. */
  function Analyze(lines: seq<Assembly.Line>, today: Date, createTables: bool): (r: Result<Roster, Assembly.Abort>)
    ensures r.Ok? ==> Run(Start, lines).Ok? && SameKeys(Run(Start, lines).value.roster, r.value)
    ensures r.Err? && Run(Start, lines).Ok? ==> createTables && r.error == Assembly.NoBirthDate
  {
    var m :- Run(Start, lines);
    assert forall i :: 0 <= i < |m.roster.indOrder| ==> m.roster.indOrder[i] in m.roster.individuals;
    if createTables then UpdateInfos(m.roster, today, m.roster.indOrder) else Ok(m.roster)
  }
}

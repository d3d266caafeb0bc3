/** The two record kinds the checker builds from a GEDCOM file, as values,
    and the two tables of them. A Python dict iterates in insertion order, so a
    table is a map together with the order its keys were first inserted in. */
module Records {
  import opened Wrappers
  import opened Dates

  /** An individual: every field starts out missing, `alive` starts true. */
  datatype IndiRec = IndiRec(
    name: Option<string>,
    sex: Option<string>,
    birt: Option<Date>,
    age: Option<int>,
    alive: bool,
    deat: Option<Date>,
    famc: Option<string>,
    fams: set<string>)

  /** A family: every field starts out missing. */
  datatype FamRec = FamRec(
    marr: Option<Date>,
    div: Option<Date>,
    husb: Option<string>,
    wife: Option<string>,
    chil: set<string>)

  const NewIndi := IndiRec(None, None, None, None, true, None, None, {})
  const NewFam := FamRec(None, None, None, None, {})

  predicate Distinct<T(==)>(s: seq<T>)
  {
    forall i, j :: 0 <= i < j < |s| ==> s[i] != s[j]
  }

  /** The individuals and families dicts. */
  datatype Tables = Tables(
    inds: map<string, IndiRec>,
    indOrder: seq<string>,
    fams: map<string, FamRec>,
    famOrder: seq<string>)
  {
    /** Each order lists its map's keys once each. */
    ghost predicate Valid()
    {
      Distinct(indOrder) && (forall k :: k in inds <==> k in indOrder)
      && Distinct(famOrder) && (forall k :: k in fams <==> k in famOrder)
    }
  }

  /** Same ids, in the same order: only record contents differ. */
  predicate SameIds(a: Tables, b: Tables)
  {
    a.indOrder == b.indOrder && a.famOrder == b.famOrder
    && a.inds.Keys == b.inds.Keys && a.fams.Keys == b.fams.Keys
  }

  lemma SameIdsValid(a: Tables, b: Tables)
    requires a.Valid() && SameIds(a, b)
    ensures b.Valid()
  {
    forall k
      ensures k in b.inds <==> k in b.indOrder
    {
      assert k in b.inds <==> k in a.inds;
    }
    forall k
      ensures k in b.fams <==> k in b.famOrder
    {
      assert k in b.fams <==> k in a.fams;
    }
  }

  /** Every id a record refers to is a key of its table, and every family
      names both spouses: no lookup the rules make from a record fails. */
  ghost predicate Linked(t: Tables)
  {
    (forall k, fam :: k in t.inds && fam in t.inds[k].fams ==> fam in t.fams)
    && (forall k :: k in t.inds && t.inds[k].famc.Some? ==> t.inds[k].famc.value in t.fams)
    && (forall fid :: fid in t.fams ==>
          t.fams[fid].husb.Some? && t.fams[fid].husb.value in t.inds
          && t.fams[fid].wife.Some? && t.fams[fid].wife.value in t.inds)
    && (forall fid, c :: fid in t.fams && c in t.fams[fid].chil ==> c in t.inds)
  }

  const EmptyTables := Tables(map[], [], map[], [])

  /** The exceptions the rules can raise on incomplete records. */
  datatype Crash =
    | KeyError        // a dict lookup of an id that is not a key (or of None)
    | TypeError       // a comparison or subtraction with a missing date or age
    | AttributeError  // `.year` of a missing date
    | IndexError      // `split()[-1]` of a name with no word in it
    | RecursionError  // the descendant search never ends

  /** `self.individuals[id]`. */
  function Person(t: Tables, id: Option<string>): (r: Result<IndiRec, Crash>)
    ensures r.Ok? <==> id.Some? && id.value in t.inds
    ensures r.Ok? ==> r.value == t.inds[id.value]
    ensures r.Err? ==> r.error == KeyError
  {
    if id.Some? && id.value in t.inds then Ok(t.inds[id.value]) else Err(KeyError)
  }

  /** `self.family[id]`. */
  function Union(t: Tables, id: Option<string>): (r: Result<FamRec, Crash>)
    ensures r.Ok? <==> id.Some? && id.value in t.fams
    ensures r.Ok? ==> r.value == t.fams[id.value]
    ensures r.Err? ==> r.error == KeyError
  {
    if id.Some? && id.value in t.fams then Ok(t.fams[id.value]) else Err(KeyError)
  }

  /** A date that a comparison or subtraction uses: a missing one raises
      `TypeError`. */
  function Compared(d: Option<Date>): (r: Result<Date, Crash>)
    ensures r.Ok? <==> d.Some?
    ensures r.Ok? ==> r.value == d.value
    ensures r.Err? ==> r.error == TypeError
  {
    if d.Some? then Ok(d.value) else Err(TypeError)
  }

  /** A date whose `.year` is read: a missing one raises `AttributeError`. */
  function YearOf(d: Option<Date>): (r: Result<int, Crash>)
    ensures r.Ok? <==> d.Some?
    ensures r.Ok? ==> r.value == d.value.year
    ensures r.Err? ==> r.error == AttributeError
  {
    if d.Some? then Ok(d.value.year) else Err(AttributeError)
  }

  /** An age used in a comparison or a sum: a missing one raises
      `TypeError`, as a missing date does in `Compared`. The two stay apart
      because they unwrap different fields, and a rule's lookups read as the
      field the Python expression uses. */
  function AgeOf(a: Option<int>): (r: Result<int, Crash>)
    ensures r.Ok? <==> a.Some?
    ensures r.Ok? ==> r.value == a.value
    ensures r.Err? ==> r.error == TypeError
  {
    if a.Some? then Ok(a.value) else Err(TypeError)
  }
}

/** What the user-story checks of `CheckForErrors` in GedcomProject.py
    compute, as functions of the two tables. Each check starts from the
    messages found so far and gives the messages afterwards, or the exception
    that a missing record, date, age or name raises (`Crash`). A loop over a
    set visits its elements in ascending order (`Sorted`), as the explicit
    `sorted` calls of the source do; a loop over a dict visits its entries in
    insertion order. */
module Rules {
  import opened Wrappers
  import opened Strings
  import opened Dates
  import opened Messages
  import opened Records

  /** The messages after a check, or the exception it raised. */
  type Outcome = Result<seq<Message>, Crash>

  // ---------------------------------------------------------------------------
  // The dicts' `items()` in insertion order
  // ---------------------------------------------------------------------------

  /** The entries of `m` in the order `order` lists their keys. */
  function Listed<V>(m: map<string, V>, order: seq<string>): (r: seq<(string, V)>)
    ensures |r| <= |order|
    ensures forall i :: 0 <= i < |r| ==> r[i].0 in m && r[i].1 == m[r[i].0]
    decreases |order|
  {
    if order == [] then []
    else (if order[0] in m then [(order[0], m[order[0]])] else []) + Listed(m, order[1..])
  }

  /** `self.individuals.items()`. */
  function People(t: Tables): seq<(string, IndiRec)>
  {
    Listed(t.inds, t.indOrder)
  }

  /** `self.family.items()`. */
  function Households(t: Tables): seq<(string, FamRec)>
  {
    Listed(t.fams, t.famOrder)
  }

  /** Both spouses of a family, the husband looked up first. */
  function Spouses(t: Tables, f: FamRec): (r: Result<(IndiRec, IndiRec), Crash>)
    ensures r.Ok? <==> Person(t, f.husb).Ok? && Person(t, f.wife).Ok?
    ensures r.Ok? ==> r.value == (Person(t, f.husb).value, Person(t, f.wife).value)
  {
    var h :- Person(t, f.husb);
    var w :- Person(t, f.wife);
    Ok((h, w))
  }

  /** `str(self.individuals[fam.husb].name).split()[-1]`: the last word of
      the husband's name. */
  function FamilyName(t: Tables, f: FamRec): (r: Result<string, Crash>)
    ensures r.Ok? <==>
              f.husb.Some? && f.husb.value in t.inds && LastWord(Show(t.inds[f.husb.value].name)).Some?
    ensures r.Ok? ==> Some(r.value) == LastWord(Show(t.inds[f.husb.value].name))
    ensures r.Err? ==> (r.error == KeyError <==> !(f.husb.Some? && f.husb.value in t.inds))
    ensures r.Err? ==> r.error == KeyError || r.error == IndexError
  {
    var h :- Person(t, f.husb);
    var w := LastWord(Show(h.name));
    if w.None? then Err(IndexError) else Ok(w.value)
  }

  // ---------------------------------------------------------------------------
  // Checks made one individual at a time. Each appends its messages to `acc`.
  // ---------------------------------------------------------------------------

  /** US01, second loop: birth and death not after today. */
  function DatesBeforeCurrPerson(today: Date, p: IndiRec, acc: seq<Message>): (r: Outcome)
    ensures r.Ok? ==> acc <= r.value
  {
    var birt :- Compared(p.birt);
    var acc1 := if Before(today, birt) then acc + [BirthInFuture(Show(p.name))] else acc;
    Ok(if p.deat.Some? && Before(today, p.deat.value) then acc1 + [DeathInFuture(Show(p.name))] else acc1)
  }

  /** US03: a death date less than the birth date. */
  function BirthBeforeDeath(p: IndiRec, acc: seq<Message>): (r: Outcome)
    ensures r.Ok? ==> acc <= r.value
  {
    if p.deat.None? then Ok(acc)
    else
      var birt :- Compared(p.birt);
      Ok(if DaysBetween(p.deat.value, birt) < 0 then acc + [DeathBeforeBirth(Show(p.name))] else acc)
  }

  /** US07: an age of 150 or more. */
  function NormalAge(p: IndiRec, acc: seq<Message>): (r: Outcome)
    ensures r.Ok? ==> acc <= r.value
  {
    var age :- AgeOf(p.age);
    Ok(if age >= 150 then acc + [TooOld(Show(p.name), age)] else acc)
  }

  /** US08: born on or before the parents' wedding, or nine months or more
      (by calendar month) after their divorce. */
  function BirthBeforeMarriage(t: Tables, p: IndiRec, acc: seq<Message>): (r: Outcome)
    ensures r.Ok? ==> acc <= r.value
  {
    if p.famc.None? then Ok(acc)
    else
      var f :- Union(t, p.famc);
      if f.div.Some? && p.birt.None? then Err(AttributeError)
      else
        var birt :- Compared(p.birt);
        var marr :- Compared(f.marr);
        if DaysBetween(birt, marr) <= 0 then Ok(acc + [BornBeforeParentsMarried(Show(p.name))])
        else if f.div.Some? && MonthsBetween(birt, f.div.value) >= 9 then
          Ok(acc + [BornAfterParentsDivorced(Show(p.name), MonthsBetween(birt, f.div.value))])
        else Ok(acc)
  }

  /** US09: born nine months or more (by calendar month) after the father's
      death, or on or after the mother's. */
  function BirthBeforeDeathOfParents(t: Tables, p: IndiRec, acc: seq<Message>): (r: Outcome)
    ensures r.Ok? ==> acc <= r.value
  {
    if p.famc.None? then Ok(acc)
    else
      var f :- Union(t, p.famc);
      var father :- Person(t, f.husb);
      var mother :- Person(t, f.wife);
      var acc1 :-
        if father.deat.None? then Ok(acc)
        else if p.birt.None? then Err(AttributeError)
        else
          var months := MonthsBetween(p.birt.value, father.deat.value);
          Ok(if months >= 9 then acc + [BornAfterFatherDied(Show(p.name), months)] else acc);
      if mother.deat.None? then Ok(acc1)
      else
        var birt :- Compared(p.birt);
        Ok(if DaysBetween(birt, mother.deat.value) >= 0 then acc1 + [BornAfterMotherDied(Show(p.name))] else acc1)
  }

  /** US10 for the families in `fams`: a marriage year at most 14 years after
      the birth year. */
  function SpousesTooYoung(t: Tables, p: IndiRec, fams: seq<string>, acc: seq<Message>): (r: Outcome)
    ensures r.Ok? ==> acc <= r.value
    decreases |fams|
  {
    if fams == [] then Ok(acc)
    else
      var f :- Union(t, Some(fams[0]));
      var married :- YearOf(f.marr);
      var born :- YearOf(p.birt);
      var years := married - born;
      var acc1 := if years <= 14 then acc + [MarriedTooYoung(Show(p.name), years)] else acc;
      var r := SpousesTooYoung(t, p, fams[1..], acc1);
      assert r.Ok? ==> acc <= acc1 <= r.value;
      r
  }

  /** US12: a father more than 80 or a mother more than 60 years older than
      the child. */
  function ParentsTooOld(t: Tables, p: IndiRec, acc: seq<Message>): (r: Outcome)
    ensures r.Ok? ==> acc <= r.value
  {
    if p.famc.None? then Ok(acc)
    else
      var f :- Union(t, p.famc);
      var father :- Person(t, f.husb);
      var age :- AgeOf(p.age);
      var fatherAge :- AgeOf(father.age);
      var acc1 := if fatherAge > age + 80 then acc + [FatherTooOld(Show(father.name), Show(p.name))] else acc;
      var mother :- Person(t, f.wife);
      var motherAge :- AgeOf(mother.age);
      Ok(if motherAge > age + 60 then acc1 + [MotherTooOld(Show(mother.name), Show(p.name))] else acc1)
  }

  /** Whether `pid` is the husband or else the wife of `f`: both are looked
      up, the wife only when the husband is not `pid`. */
  function SpouseIs(t: Tables, f: FamRec, pid: string): (r: Result<bool, Crash>)
    ensures r.Ok? <==> Person(t, f.husb).Ok? && (f.husb != Some(pid) ==> Person(t, f.wife).Ok?)
    ensures r.Ok? ==> (r.value <==> f.husb == Some(pid) || f.wife == Some(pid))
  {
    var husband :- Person(t, f.husb);
    if f.husb == Some(pid) then Ok(true)
    else
      var wife :- Person(t, f.wife);
      Ok(f.wife == Some(pid))
  }

  /** `descendants_help(initial, current)`: `current`'s families, each
      reported when the individual `pid` is one of its spouses, and then every
      child's own search. `fuel` bounds the depth of the search; a search
      deeper than there are individuals has met the same individual twice on
      one path and would never end, so running out of fuel is the
      `RecursionError` the source raises. */
  function DescendantsHelp(t: Tables, pid: string, initial: IndiRec, current: IndiRec, fuel: nat, acc: seq<Message>): (r: Outcome)
    ensures r.Ok? ==> acc <= r.value
    decreases fuel, 0, 0
  {
    if fuel == 0 then Err(RecursionError)
    else DescendantFamilies(t, pid, initial, current, Sorted(current.fams), fuel - 1, acc)
  }

  /** The search through the families `fams` of `current`. */
  function DescendantFamilies(t: Tables, pid: string, initial: IndiRec, current: IndiRec, fams: seq<string>, fuel: nat, acc: seq<Message>): (r: Outcome)
    ensures r.Ok? ==> acc <= r.value
    decreases fuel, 3, |fams|
  {
    if fams == [] then Ok(acc)
    else
      var acc1 :- DescendantFamily(t, pid, initial, current, fams[0], fuel, acc);
      var r := DescendantFamilies(t, pid, initial, current, fams[1..], fuel, acc1);
      assert r.Ok? ==> acc <= acc1 <= r.value;
      r
  }

  /** The search through one family `fam` of `current`: reported when `pid`
      is one of its spouses, then the search from each of its children. */
  function DescendantFamily(t: Tables, pid: string, initial: IndiRec, current: IndiRec, fam: string, fuel: nat, acc: seq<Message>): (r: Outcome)
    ensures r.Ok? ==> acc <= r.value
    decreases fuel, 2, 0
  {
    var f :- Union(t, Some(fam));
    var married :- SpouseIs(t, f, pid);
    var acc1 := if married then acc + [MarriedToDescendant(Show(initial.name), Show(current.name))] else acc;
    var r := DescendantChildren(t, pid, initial, Sorted(f.chil), fuel, acc1);
    assert r.Ok? ==> acc <= acc1 <= r.value;
    r
  }

  /** The search from each of the children `kids`. */
  function DescendantChildren(t: Tables, pid: string, initial: IndiRec, kids: seq<string>, fuel: nat, acc: seq<Message>): (r: Outcome)
    ensures r.Ok? ==> acc <= r.value
    decreases fuel, 1, |kids|
  {
    if kids == [] then Ok(acc)
    else
      var child :- Person(t, Some(kids[0]));
      var acc1 :- DescendantsHelp(t, pid, initial, child, fuel, acc);
      var r := DescendantChildren(t, pid, initial, kids[1..], fuel, acc1);
      assert r.Ok? ==> acc <= acc1 <= r.value;
      r
  }

  /** The search depth after which a descendant search has repeated an
      individual. */
  function SearchDepth(t: Tables): nat
  {
    |t.inds|
  }

  /** US17 for the individual `pid` and their families `fams`: the search
      from every child of each family. */
  function NoMarriageToDescendants(t: Tables, pid: string, p: IndiRec, fams: seq<string>, acc: seq<Message>): (r: Outcome)
    ensures r.Ok? ==> acc <= r.value
    decreases |fams|
  {
    if fams == [] then Ok(acc)
    else
      var f :- Union(t, Some(fams[0]));
      var acc1 :- DescendantChildren(t, pid, p, Sorted(f.chil), SearchDepth(t), acc);
      var r := NoMarriageToDescendants(t, pid, p, fams[1..], acc1);
      assert r.Ok? ==> acc <= acc1 <= r.value;
      r
  }

  /** US18 for one family `f` of the individual `pid`: its husband, or else
      its wife, is another child of the family `pid` grew up in. */
  function SiblingSpouse(t: Tables, pid: string, p: IndiRec, f: FamRec, acc: seq<Message>): (r: Outcome)
    ensures r.Ok? ==> acc <= r.value
  {
    if p.famc.None? then Ok(acc)
    else
      var home :- Union(t, p.famc);
      var byHusband :-
        if f.husb.Some? && f.husb.value in home.chil then
          var husband :- Person(t, f.husb);
          Ok(if f.husb.value != pid then Some(husband) else None)
        else Ok(None);
      if byHusband.Some? then Ok(acc + [MarriedToSibling(Show(p.name), Show(byHusband.value.name))])
      else if f.wife.Some? && f.wife.value in home.chil then
        var wife :- Person(t, f.wife);
        Ok(if f.wife.value != pid then acc + [MarriedToSibling(Show(p.name), Show(wife.name))] else acc)
      else Ok(acc)
  }

  /** US18 for the families `fams` of the individual `pid`. */
  function NoMarriageToSiblings(t: Tables, pid: string, p: IndiRec, fams: seq<string>, acc: seq<Message>): (r: Outcome)
    ensures r.Ok? ==> acc <= r.value
    decreases |fams|
  {
    if fams == [] then Ok(acc)
    else
      var f :- Union(t, Some(fams[0]));
      var acc1 :- SiblingSpouse(t, pid, p, f, acc);
      var r := NoMarriageToSiblings(t, pid, p, fams[1..], acc1);
      assert r.Ok? ==> acc <= acc1 <= r.value;
      r
  }

  // ---------------------------------------------------------------------------
  // Children and current spouse, for the cousin and aunt-and-uncle checks
  // ---------------------------------------------------------------------------

  /** `kids` followed by the children of the families `fams`, family by
      family. */
  function ChildrenOf(t: Tables, fams: seq<string>, kids: seq<string>): (r: Result<seq<string>, Crash>)
    ensures r.Ok? ==> kids <= r.value
    ensures r.Ok? <==> forall j :: 0 <= j < |fams| ==> fams[j] in t.fams
    ensures r.Err? ==> r.error == KeyError
    decreases |fams|
  {
    if fams == [] then Ok(kids)
    else
      var f :- Union(t, Some(fams[0]));
      var r := ChildrenOf(t, fams[1..], kids + Sorted(f.chil));
      assert r.Ok? ==> kids <= kids + Sorted(f.chil) <= r.value;
      r
  }

  /** `get_childrenID`: the children of all of an individual's families. */
  function ChildrenIds(t: Tables, id: string): (r: Result<seq<string>, Crash>)
    ensures r.Ok? <==> id in t.inds && forall fam :: fam in t.inds[id].fams ==> fam in t.fams
    ensures r.Err? ==> r.error == KeyError
  {
    var p :- Person(t, Some(id));
    SortedMembers(p.fams);
    ChildrenOf(t, Sorted(p.fams), [])
  }

  /** The spouse in the first of `fams` with no divorce: the wife for a man,
      the husband otherwise; `None` when every family has a divorce. */
  function SpouseIn(t: Tables, p: IndiRec, fams: seq<string>): (r: Result<Option<string>, Crash>)
    ensures r.Err? ==> r.error == KeyError
    ensures r.Ok? && r.value.Some? ==> exists j :: 0 <= j < |fams| && fams[j] in t.fams && t.fams[fams[j]].div.None?
    decreases |fams|
  {
    if fams == [] then Ok(None)
    else
      var f :- Union(t, Some(fams[0]));
      if f.div.None? then Ok(if p.sex == Some("M") then f.wife else f.husb)
      else SpouseIn(t, p, fams[1..])
  }

  /** `get_spouse`: the current spouse's id, `None` when there is none. */
  function Spouse(t: Tables, id: string): (r: Result<Option<string>, Crash>)
    ensures r.Err? ==> r.error == KeyError
    ensures r.Ok? && r.value.Some? ==>
      id in t.inds && exists fam :: fam in t.inds[id].fams && fam in t.fams && t.fams[fam].div.None?
  {
    var p :- Person(t, Some(id));
    SortedMembers(p.fams);
    SpouseIn(t, p, Sorted(p.fams))
  }

  // ---------------------------------------------------------------------------
  // Checks made one family at a time
  // ---------------------------------------------------------------------------

  /** US01, first loop: marriage and divorce not after today. */
  function DatesBeforeCurrFamily(t: Tables, today: Date, f: FamRec, acc: seq<Message>): (r: Outcome)
    ensures r.Ok? ==> acc <= r.value
  {
    var marr :- Compared(f.marr);
    var acc1 :-
      if Before(today, marr) then
        var s :- Spouses(t, f);
        Ok(acc + [MarriageInFuture(Show(s.0.name), Show(s.1.name))])
      else Ok(acc);
    if f.div.Some? && Before(today, f.div.value) then
      var s :- Spouses(t, f);
      Ok(acc1 + [DivorceInFuture(Show(s.0.name), Show(s.1.name))])
    else Ok(acc1)
  }

  /** US02: a spouse born after the wedding. */
  function IndiBirthBeforeMarriage(t: Tables, f: FamRec, acc: seq<Message>): (r: Outcome)
    ensures r.Ok? ==> acc <= r.value
  {
    var husband :- Person(t, f.husb);
    var wife :- Person(t, f.wife);
    var husbandBorn :- Compared(husband.birt);
    var marr :- Compared(f.marr);
    var wifeBorn :- Compared(wife.birt);
    Ok(if Before(marr, husbandBorn) && Before(marr, wifeBorn) then acc + [BothBornAfterMarriage(Show(husband.name), Show(wife.name))]
       else if Before(marr, husbandBorn) then acc + [BornAfterMarriage(Show(husband.name))]
       else if Before(marr, wifeBorn) then acc + [BornAfterMarriage(Show(wife.name))]
       else acc)
  }

  /** US04: a divorce date less than the marriage date. */
  function MarrBeforeDiv(t: Tables, f: FamRec, acc: seq<Message>): (r: Outcome)
    ensures r.Ok? ==> acc <= r.value
  {
    if f.div.None? then Ok(acc)
    else
      var marr :- Compared(f.marr);
      if DaysBetween(f.div.value, marr) < 0 then
        var s :- Spouses(t, f);
        Ok(acc + [DivorceBeforeMarriage(Show(s.0.name), Show(s.1.name))])
      else Ok(acc)
  }

  function Abs(x: int): (r: nat)
    ensures r == x || r == -x
  {
    if x < 0 then -x else x
  }

  /** US13 for one pair of children: births more than two days but less than
      eight calendar months apart. */
  function SpacedPair(t: Tables, first: string, second: string, acc: seq<Message>): (r: Outcome)
    ensures r.Ok? ==> acc <= r.value
  {
    var c1 :- Person(t, Some(first));
    var c2 :- Person(t, Some(second));
    var b1 :- Compared(c1.birt);
    var b2 :- Compared(c2.birt);
    var days := Abs(DaysBetween(b1, b2));
    Ok(if days > 2 && Abs(MonthsBetween(b1, b2)) < 8 then acc + [SiblingsTooClose(Show(c1.name), Show(c2.name), days)] else acc)
  }

  /** US13 for the pairs of `kids[i]` with `kids[j]` and the children after
      it. */
  function SpacingWith(t: Tables, kids: seq<string>, i: nat, j: nat, acc: seq<Message>): (r: Outcome)
    requires i < |kids|
    ensures r.Ok? ==> acc <= r.value
    decreases |kids| - j
  {
    if j >= |kids| then Ok(acc)
    else
      var acc1 :- SpacedPair(t, kids[i], kids[j], acc);
      var r := SpacingWith(t, kids, i, j + 1, acc1);
      assert r.Ok? ==> acc <= acc1 <= r.value;
      r
  }

  /** US13 for the pairs whose first child is `kids[i]` or one after it. */
  function SpacingFrom(t: Tables, kids: seq<string>, i: nat, acc: seq<Message>): (r: Outcome)
    ensures r.Ok? ==> acc <= r.value
    decreases |kids| - i
  {
    if i >= |kids| then Ok(acc)
    else
      var acc1 :- SpacingWith(t, kids, i, i + 1, acc);
      var r := SpacingFrom(t, kids, i + 1, acc1);
      assert r.Ok? ==> acc <= acc1 <= r.value;
      r
  }

  /** `birthDayDict`: its keys in insertion order and its counts. */
  datatype Counter = Counter(keys: seq<Option<Date>>, counts: map<Option<Date>, nat>)

  /** `birthDayDict` after counting `k` once more: an existing key keeps its
      place, a new one goes last with count 1. */
  function Count(c: Counter, k: Option<Date>): Counter
  {
    if k in c.counts then c.(counts := c.counts[k := c.counts[k] + 1])
    else Counter(c.keys + [k], c.counts[k := 1])
  }

  /** `birthDayDict` after counting the birth dates `births`: the keys are
      the distinct dates, in order of first occurrence. */
  function Tally(births: seq<Option<Date>>): (r: Counter)
    ensures forall k :: k in r.counts <==> k in r.keys
    ensures Distinct(r.keys)
    decreases |births|
  {
    if births == [] then Counter([], map[])
    else Count(Tally(births[..|births| - 1]), births[|births| - 1])
  }

  /** Counting one more date. */
  lemma TallyAppend(births: seq<Option<Date>>, k: Option<Date>)
    ensures Tally(births + [k]) == Count(Tally(births), k)
  {
    assert (births + [k])[..|births|] == births;
  }

  /** The birth dates of `kids`, looked up in order, after `births`. */
  function BirthsOf(t: Tables, kids: seq<string>, births: seq<Option<Date>>): (r: Result<seq<Option<Date>>, Crash>)
    ensures r.Ok? <==> forall i :: 0 <= i < |kids| ==> kids[i] in t.inds
    ensures r.Err? ==> r.error == KeyError
    ensures r.Ok? ==> |r.value| == |births| + |kids| && r.value[..|births|] == births
    ensures r.Ok? ==> forall i :: 0 <= i < |kids| ==> r.value[|births| + i] == t.inds[kids[i]].birt
    decreases |kids|
  {
    if kids == [] then Ok(births)
    else
      var child :- Person(t, Some(kids[0]));
      var r := BirthsOf(t, kids[1..], births + [child.birt]);
      assert r.Ok? ==> r.value[|births|] == (births + [child.birt])[|births|];
      assert forall i :: 1 <= i < |kids| ==> kids[i] == kids[1..][i - 1];
      r
  }

  /** One message for each of the dates `keys` counted more than five
      times. */
  function CrowdedBirths(t: Tables, f: FamRec, keys: seq<Option<Date>>, counts: map<Option<Date>, nat>, acc: seq<Message>): (r: Outcome)
    requires forall i :: 0 <= i < |keys| ==> keys[i] in counts
    ensures r.Ok? ==> acc <= r.value
    decreases |keys|
  {
    if keys == [] then Ok(acc)
    else
      var acc1 :-
        if counts[keys[0]] > 5 then
          var name :- FamilyName(t, f);
          Ok(acc + [TooManyMultipleBirths(name)])
        else Ok(acc);
      var r := CrowdedBirths(t, f, keys[1..], counts, acc1);
      assert r.Ok? ==> acc <= acc1 <= r.value;
      r
  }

  /** US14: more than five children with the same birth date. */
  function TooManyBirths(t: Tables, f: FamRec, acc: seq<Message>): (r: Outcome)
    ensures r.Ok? ==> acc <= r.value
  {
    var births :- BirthsOf(t, Sorted(f.chil), []);
    var dict := Tally(births);
    CrowdedBirths(t, f, dict.keys, dict.counts, acc)
  }

  /** US15: fifteen children or more. */
  function TooManySiblingsOf(t: Tables, f: FamRec, acc: seq<Message>): (r: Outcome)
    ensures r.Ok? ==> acc <= r.value
  {
    if |f.chil| >= 15 then
      var name :- FamilyName(t, f);
      Ok(acc + [TooManySiblings(name)])
    else Ok(acc)
  }

  /** US20 for the children `kids` of one sibling: those whose current spouse
      is one of the `siblings`. */
  function MarriedIntoSiblings(t: Tables, siblings: set<string>, kids: seq<string>, acc: seq<Message>): (r: Outcome)
    ensures r.Ok? ==> acc <= r.value
    decreases |kids|
  {
    if kids == [] then Ok(acc)
    else
      var child :- Person(t, Some(kids[0]));
      var spouse :- SpouseIn(t, child, Sorted(child.fams));
      var acc1 := if spouse.Some? && spouse.value in siblings then acc + [MarriedToAuntOrUncle(Show(child.name))] else acc;
      var r := MarriedIntoSiblings(t, siblings, kids[1..], acc1);
      assert r.Ok? ==> acc <= acc1 <= r.value;
      r
  }

  /** US20 for the siblings `sibs`, children of a family whose children are
      `siblings`. */
  function AuntsAndUncles(t: Tables, siblings: set<string>, sibs: seq<string>, acc: seq<Message>): (r: Outcome)
    ensures r.Ok? ==> acc <= r.value
    decreases |sibs|
  {
    if sibs == [] then Ok(acc)
    else
      var kids :- ChildrenIds(t, sibs[0]);
      var acc1 :- MarriedIntoSiblings(t, siblings, kids, acc);
      var r := AuntsAndUncles(t, siblings, sibs[1..], acc1);
      assert r.Ok? ==> acc <= acc1 <= r.value;
      r
  }

  /** US21: a female husband or a male wife, the family named by the
      husband's last name without slashes. */
  function CorrectGenderRole(t: Tables, f: FamRec, acc: seq<Message>): (r: Outcome)
    ensures r.Ok? ==> acc <= r.value
  {
    var name :- FamilyName(t, f);
    var family := StripSlashes(name);
    var s :- Spouses(t, f);
    var acc1 := if s.0.sex == Some("F") then acc + [FemaleHusband(family, Show(s.0.name))] else acc;
    Ok(if s.1.sex == Some("M") then acc1 + [MaleWife(family, Show(s.1.name))] else acc1)
  }

  /** US25 for the children `kids` of the family `id`: a name and birth date
      already in `seen`. */
  function UniqueChildren(t: Tables, id: string, kids: seq<string>, seen: seq<(Option<string>, Option<Date>)>, acc: seq<Message>): (r: Outcome)
    ensures r.Ok? ==> acc <= r.value
    decreases |kids|
  {
    if kids == [] then Ok(acc)
    else
      var child :- Person(t, Some(kids[0]));
      var key := (child.name, child.birt);
      if key in seen then
        var r := UniqueChildren(t, id, kids[1..], seen, acc + [DuplicateChild(Show(child.name), child.birt, id)]);
        assert r.Ok? ==> acc <= acc + [DuplicateChild(Show(child.name), child.birt, id)] <= r.value;
        r
      else UniqueChildren(t, id, kids[1..], seen + [key], acc)
  }

  // ---------------------------------------------------------------------------
  // The checks that look at each record on its own, over the records `xs`:
  // each stops at the first exception.
  // ---------------------------------------------------------------------------

  /** US01, second loop over the individuals `xs`. */
  function US01People(today: Date, xs: seq<(string, IndiRec)>, acc: seq<Message>): (r: Outcome)
    ensures r.Ok? ==> acc <= r.value
    decreases |xs|
  {
    if xs == [] then Ok(acc)
    else
      var acc1 :- DatesBeforeCurrPerson(today, xs[0].1, acc);
      var r := US01People(today, xs[1..], acc1);
      assert r.Ok? ==> acc <= acc1 <= r.value;
      r
  }

  /** US03 over the individuals `xs`. */
  function US03(xs: seq<(string, IndiRec)>, acc: seq<Message>): (r: Outcome)
    ensures r.Ok? ==> acc <= r.value
    decreases |xs|
  {
    if xs == [] then Ok(acc)
    else
      var acc1 :- BirthBeforeDeath(xs[0].1, acc);
      var r := US03(xs[1..], acc1);
      assert r.Ok? ==> acc <= acc1 <= r.value;
      r
  }

  /** US07 over the individuals `xs`. */
  function US07(xs: seq<(string, IndiRec)>, acc: seq<Message>): (r: Outcome)
    ensures r.Ok? ==> acc <= r.value
    decreases |xs|
  {
    if xs == [] then Ok(acc)
    else
      var acc1 :- NormalAge(xs[0].1, acc);
      var r := US07(xs[1..], acc1);
      assert r.Ok? ==> acc <= acc1 <= r.value;
      r
  }

  /** US08 over the individuals `xs`. */
  function US08(t: Tables, xs: seq<(string, IndiRec)>, acc: seq<Message>): (r: Outcome)
    ensures r.Ok? ==> acc <= r.value
    decreases |xs|
  {
    if xs == [] then Ok(acc)
    else
      var acc1 :- BirthBeforeMarriage(t, xs[0].1, acc);
      var r := US08(t, xs[1..], acc1);
      assert r.Ok? ==> acc <= acc1 <= r.value;
      r
  }

  /** US09 over the individuals `xs`. */
  function US09(t: Tables, xs: seq<(string, IndiRec)>, acc: seq<Message>): (r: Outcome)
    ensures r.Ok? ==> acc <= r.value
    decreases |xs|
  {
    if xs == [] then Ok(acc)
    else
      var acc1 :- BirthBeforeDeathOfParents(t, xs[0].1, acc);
      var r := US09(t, xs[1..], acc1);
      assert r.Ok? ==> acc <= acc1 <= r.value;
      r
  }

  /** US10 over the individuals `xs`. */
  function US10(t: Tables, xs: seq<(string, IndiRec)>, acc: seq<Message>): (r: Outcome)
    ensures r.Ok? ==> acc <= r.value
    decreases |xs|
  {
    if xs == [] then Ok(acc)
    else
      var acc1 :- SpousesTooYoung(t, xs[0].1, Sorted(xs[0].1.fams), acc);
      var r := US10(t, xs[1..], acc1);
      assert r.Ok? ==> acc <= acc1 <= r.value;
      r
  }

  /** US12 over the individuals `xs`. */
  function US12(t: Tables, xs: seq<(string, IndiRec)>, acc: seq<Message>): (r: Outcome)
    ensures r.Ok? ==> acc <= r.value
    decreases |xs|
  {
    if xs == [] then Ok(acc)
    else
      var acc1 :- ParentsTooOld(t, xs[0].1, acc);
      var r := US12(t, xs[1..], acc1);
      assert r.Ok? ==> acc <= acc1 <= r.value;
      r
  }

  /** US17 over the individuals `xs`. */
  function US17(t: Tables, xs: seq<(string, IndiRec)>, acc: seq<Message>): (r: Outcome)
    ensures r.Ok? ==> acc <= r.value
    decreases |xs|
  {
    if xs == [] then Ok(acc)
    else
      var acc1 :- NoMarriageToDescendants(t, xs[0].0, xs[0].1, Sorted(xs[0].1.fams), acc);
      var r := US17(t, xs[1..], acc1);
      assert r.Ok? ==> acc <= acc1 <= r.value;
      r
  }

  /** US18 over the individuals `xs`. */
  function US18(t: Tables, xs: seq<(string, IndiRec)>, acc: seq<Message>): (r: Outcome)
    ensures r.Ok? ==> acc <= r.value
    decreases |xs|
  {
    if xs == [] then Ok(acc)
    else
      var acc1 :- NoMarriageToSiblings(t, xs[0].0, xs[0].1, Sorted(xs[0].1.fams), acc);
      var r := US18(t, xs[1..], acc1);
      assert r.Ok? ==> acc <= acc1 <= r.value;
      r
  }

  /** US01, first loop over the families `xs`. */
  function US01Families(t: Tables, today: Date, xs: seq<(string, FamRec)>, acc: seq<Message>): (r: Outcome)
    ensures r.Ok? ==> acc <= r.value
    decreases |xs|
  {
    if xs == [] then Ok(acc)
    else
      var acc1 :- DatesBeforeCurrFamily(t, today, xs[0].1, acc);
      var r := US01Families(t, today, xs[1..], acc1);
      assert r.Ok? ==> acc <= acc1 <= r.value;
      r
  }

  /** US02 over the families `xs`. */
  function US02(t: Tables, xs: seq<(string, FamRec)>, acc: seq<Message>): (r: Outcome)
    ensures r.Ok? ==> acc <= r.value
    decreases |xs|
  {
    if xs == [] then Ok(acc)
    else
      var acc1 :- IndiBirthBeforeMarriage(t, xs[0].1, acc);
      var r := US02(t, xs[1..], acc1);
      assert r.Ok? ==> acc <= acc1 <= r.value;
      r
  }

  /** US04 over the families `xs`. */
  function US04(t: Tables, xs: seq<(string, FamRec)>, acc: seq<Message>): (r: Outcome)
    ensures r.Ok? ==> acc <= r.value
    decreases |xs|
  {
    if xs == [] then Ok(acc)
    else
      var acc1 :- MarrBeforeDiv(t, xs[0].1, acc);
      var r := US04(t, xs[1..], acc1);
      assert r.Ok? ==> acc <= acc1 <= r.value;
      r
  }

  /** US13 over the families `xs`. */
  function US13(t: Tables, xs: seq<(string, FamRec)>, acc: seq<Message>): (r: Outcome)
    ensures r.Ok? ==> acc <= r.value
    decreases |xs|
  {
    if xs == [] then Ok(acc)
    else
      var acc1 :- SpacingFrom(t, Sorted(xs[0].1.chil), 0, acc);
      var r := US13(t, xs[1..], acc1);
      assert r.Ok? ==> acc <= acc1 <= r.value;
      r
  }

  /** US14 over the families `xs`. */
  function US14(t: Tables, xs: seq<(string, FamRec)>, acc: seq<Message>): (r: Outcome)
    ensures r.Ok? ==> acc <= r.value
    decreases |xs|
  {
    if xs == [] then Ok(acc)
    else
      var acc1 :- TooManyBirths(t, xs[0].1, acc);
      var r := US14(t, xs[1..], acc1);
      assert r.Ok? ==> acc <= acc1 <= r.value;
      r
  }

  /** US15 over the families `xs`. */
  function US15(t: Tables, xs: seq<(string, FamRec)>, acc: seq<Message>): (r: Outcome)
    ensures r.Ok? ==> acc <= r.value
    decreases |xs|
  {
    if xs == [] then Ok(acc)
    else
      var acc1 :- TooManySiblingsOf(t, xs[0].1, acc);
      var r := US15(t, xs[1..], acc1);
      assert r.Ok? ==> acc <= acc1 <= r.value;
      r
  }

  /** US20 over the families `xs`. */
  function US20(t: Tables, xs: seq<(string, FamRec)>, acc: seq<Message>): (r: Outcome)
    ensures r.Ok? ==> acc <= r.value
    decreases |xs|
  {
    if xs == [] then Ok(acc)
    else
      var acc1 :- AuntsAndUncles(t, xs[0].1.chil, Sorted(xs[0].1.chil), acc);
      var r := US20(t, xs[1..], acc1);
      assert r.Ok? ==> acc <= acc1 <= r.value;
      r
  }

  /** US21 over the families `xs`. */
  function US21(t: Tables, xs: seq<(string, FamRec)>, acc: seq<Message>): (r: Outcome)
    ensures r.Ok? ==> acc <= r.value
    decreases |xs|
  {
    if xs == [] then Ok(acc)
    else
      var acc1 :- CorrectGenderRole(t, xs[0].1, acc);
      var r := US21(t, xs[1..], acc1);
      assert r.Ok? ==> acc <= acc1 <= r.value;
      r
  }

  /** US25 over the families `xs`. */
  function US25(t: Tables, xs: seq<(string, FamRec)>, acc: seq<Message>): (r: Outcome)
    ensures r.Ok? ==> acc <= r.value
    decreases |xs|
  {
    if xs == [] then Ok(acc)
    else
      var acc1 :- UniqueChildren(t, xs[0].0, Sorted(xs[0].1.chil), [], acc);
      var r := US25(t, xs[1..], acc1);
      assert r.Ok? ==> acc <= acc1 <= r.value;
      r
  }

  // ---------------------------------------------------------------------------
  // Checks that carry something from one record to the next
  // ---------------------------------------------------------------------------

  /** US05 and US06 for one family with a dead spouse: the husband's death
      if he is dead, else the wife's, before the marriage or the divorce. */
  function DiedBeforeWedding(husband: IndiRec, wife: IndiRec, f: FamRec, acc: seq<Message>): (r: Outcome)
    requires husband.deat.Some? || wife.deat.Some?
    ensures r.Ok? ==> acc <= r.value
  {
    var death := if husband.deat.Some? then husband.deat.value else wife.deat.value;
    var marr :- Compared(f.marr);
    var early := DaysBetween(death, marr) < 0 || (f.div.Some? && DaysBetween(death, f.div.value) < 0);
    Ok(if early then acc + [MarriedOrDivorcedAfterDeath(Show(husband.name), Show(wife.name))] else acc)
  }

  /** US05 and US06 over the families `xs`: the loop ends at the first family
      whose spouses are both alive. */
  function MarrDivBeforeDeath(t: Tables, xs: seq<(string, FamRec)>, acc: seq<Message>): (r: Outcome)
    ensures r.Ok? ==> acc <= r.value
    decreases |xs|
  {
    if xs == [] then Ok(acc)
    else
      var husband :- Person(t, xs[0].1.husb);
      var wife :- Person(t, xs[0].1.wife);
      if husband.deat.None? && wife.deat.None? then Ok(acc)
      else
        var acc1 :- DiedBeforeWedding(husband, wife, xs[0].1, acc);
        var r := MarrDivBeforeDeath(t, xs[1..], acc1);
        assert r.Ok? ==> acc <= acc1 <= r.value;
        r
  }

  /** `add_errors_if_new`: `e` appended unless it is already there. */
  function AddErrorsIfNew(acc: seq<Message>, e: Message): (r: seq<Message>)
    ensures e in r && acc <= r && |r| <= |acc| + 1
  {
    if e in acc then acc else acc + [e]
  }

  /** US11 for one spouse named `name` and their families `fams`: after the
      first, each family is a bigamy if the one before it has no divorce, or
      if it started after the one before it and before that one's divorce.
      `prev` is the previous family's marriage and divorce. */
  function BigamyScan(t: Tables, name: string, fams: seq<string>, prev: Option<(Option<Date>, Option<Date>)>, acc: seq<Message>): (r: Outcome)
    ensures r.Ok? ==> acc <= r.value
    decreases |fams|
  {
    if fams == [] then Ok(acc)
    else
      var f :- Union(t, Some(fams[0]));
      var acc1 :-
        if prev.None? then Ok(acc)
        else if prev.value.1.None? then Ok(AddErrorsIfNew(acc, Bigamy(name)))
        else
          var marr :- Compared(f.marr);
          var prevMarr :- Compared(prev.value.0);
          Ok(if DaysBetween(marr, prevMarr) > 0 && DaysBetween(marr, prev.value.1.value) < 0
             then AddErrorsIfNew(acc, Bigamy(name)) else acc);
      var r := BigamyScan(t, name, fams[1..], Some((f.marr, f.div)), acc1);
      assert r.Ok? ==> acc <= acc1 <= r.value;
      r
  }

  /** US11 for one spouse: their families scanned when there are two or
      more. */
  function SpouseBigamy(t: Tables, p: IndiRec, acc: seq<Message>): (r: Outcome)
    ensures r.Ok? ==> acc <= r.value
  {
    if |p.fams| > 1 then BigamyScan(t, Show(p.name), Sorted(p.fams), None, acc) else Ok(acc)
  }

  /** US11 over the families `xs`: a family whose husband has exactly one
      family is skipped, wife and all. */
  function NoBigamy(t: Tables, xs: seq<(string, FamRec)>, acc: seq<Message>): (r: Outcome)
    ensures r.Ok? ==> acc <= r.value
    decreases |xs|
  {
    if xs == [] then Ok(acc)
    else
      var husband :- Person(t, xs[0].1.husb);
      if |husband.fams| == 1 then NoBigamy(t, xs[1..], acc)
      else
        var acc1 :- SpouseBigamy(t, husband, acc);
        var wife :- Person(t, xs[0].1.wife);
        var acc2 :- SpouseBigamy(t, wife, acc1);
        var r := NoBigamy(t, xs[1..], acc2);
        assert r.Ok? ==> acc <= acc1 <= acc2 <= r.value;
        r
  }

  /** The messages of US19 so far, with `couples`: each couple reported,
      as the pair (cousin, child). */
  datatype CousinState = CousinState(msgs: seq<Message>, couples: seq<(string, string)>)

  /** US19 for the child `curr` and the cousins `cousins`: a cousin whose
      current spouse is `curr`, unless the pair (curr, cousin) is among the
      couples. */
  function CousinList(t: Tables, curr: string, cousins: seq<string>, st: CousinState): (r: Result<CousinState, Crash>)
    ensures r.Ok? ==> st.msgs <= r.value.msgs
    decreases |cousins|
  {
    if cousins == [] then Ok(st)
    else
      var cousin := cousins[0];
      var other :- Person(t, Some(cousin));
      var spouse :- SpouseIn(t, other, Sorted(other.fams));
      var st1 :-
        if spouse == Some(curr) && (curr, cousin) !in st.couples then
          var child :- Person(t, Some(curr));
          Ok(CousinState(st.msgs + [MarriedToCousin(Show(child.name), Show(other.name))], st.couples + [(cousin, curr)]))
        else Ok(st);
      var r := CousinList(t, curr, cousins[1..], st1);
      assert r.Ok? ==> st.msgs <= st1.msgs <= r.value.msgs;
      r
  }

  /** US19 for the child `curr` and the parent's siblings `aunts`. */
  function CousinAunts(t: Tables, curr: string, aunts: seq<string>, st: CousinState): (r: Result<CousinState, Crash>)
    ensures r.Ok? ==> st.msgs <= r.value.msgs
    decreases |aunts|
  {
    if aunts == [] then Ok(st)
    else
      var cousins :- ChildrenIds(t, aunts[0]);
      var st1 :- CousinList(t, curr, cousins, st);
      var r := CousinAunts(t, curr, aunts[1..], st1);
      assert r.Ok? ==> st.msgs <= st1.msgs <= r.value.msgs;
      r
  }

  /** US19 for the child `curr` on the side of the parent `parent`. */
  function CousinSide(t: Tables, parent: Option<string>, curr: string, st: CousinState): (r: Result<CousinState, Crash>)
    ensures r.Ok? ==> st.msgs <= r.value.msgs
  {
    var p :- Person(t, parent);
    if p.famc.None? then Ok(st)
    else
      var home :- Union(t, p.famc);
      CousinAunts(t, curr, Sorted(home.chil), st)
  }

  /** US19 for the children `kids` of the family `f`: the mother's side, then
      the father's. */
  function CousinChildren(t: Tables, f: FamRec, kids: seq<string>, st: CousinState): (r: Result<CousinState, Crash>)
    ensures r.Ok? ==> st.msgs <= r.value.msgs
    decreases |kids|
  {
    if kids == [] then Ok(st)
    else
      var st1 :- CousinSide(t, f.wife, kids[0], st);
      var st2 :- CousinSide(t, f.husb, kids[0], st1);
      var r := CousinChildren(t, f, kids[1..], st2);
      assert r.Ok? ==> st.msgs <= st1.msgs <= st2.msgs <= r.value.msgs;
      r
  }

  /** US19 over the families `xs`. */
  function NoMarriageToCousin(t: Tables, xs: seq<(string, FamRec)>, st: CousinState): (r: Result<CousinState, Crash>)
    ensures r.Ok? ==> st.msgs <= r.value.msgs
    decreases |xs|
  {
    if xs == [] then Ok(st)
    else
      var st1 :- CousinChildren(t, xs[0].1, Sorted(xs[0].1.chil), st);
      var r := NoMarriageToCousin(t, xs[1..], st1);
      assert r.Ok? ==> st.msgs <= st1.msgs <= r.value.msgs;
      r
  }

  /** US23 over the individuals `xs`: a name and birth date already in
      `seen`. */
  function UniqueNamesAndBdays(xs: seq<(string, IndiRec)>, seen: seq<(Option<string>, Option<Date>)>, acc: seq<Message>): (r: seq<Message>)
    ensures acc <= r
    decreases |xs|
  {
    if xs == [] then acc
    else
      var p := xs[0].1;
      var key := (p.name, p.birt);
      if key in seen then UniqueNamesAndBdays(xs[1..], seen, acc + [DuplicateNameAndBirthday(Show(p.name), p.birt)])
      else UniqueNamesAndBdays(xs[1..], seen + [key], acc)
  }

  /** US24 over the families `xs`: spouses' names and marriage date already
      in `seen`. */
  function UniqueSpousesInFamily(t: Tables, xs: seq<(string, FamRec)>, seen: seq<(Option<string>, Option<string>, Option<Date>)>, acc: seq<Message>): (r: Outcome)
    ensures r.Ok? ==> acc <= r.value
    decreases |xs|
  {
    if xs == [] then Ok(acc)
    else
      var s :- Spouses(t, xs[0].1);
      var key := (s.0.name, s.1.name, xs[0].1.marr);
      if key in seen then
        var acc1 := acc + [DuplicateSpouses(Show(s.0.name), Show(s.1.name), xs[0].1.marr)];
        var r := UniqueSpousesInFamily(t, xs[1..], seen, acc1);
        assert r.Ok? ==> acc <= acc1 <= r.value;
        r
      else UniqueSpousesInFamily(t, xs[1..], seen + [key], acc)
  }

  // ---------------------------------------------------------------------------
  // The checks one by one, and all of them
  // ---------------------------------------------------------------------------

  function US01(t: Tables, today: Date, acc: seq<Message>): (r: Outcome)
    ensures r.Ok? ==> acc <= r.value
  {
    var acc1 :- US01Families(t, today, Households(t), acc);
    US01People(today, People(t), acc1)
  }

  function US05(t: Tables, acc: seq<Message>): (r: Outcome)
    ensures r.Ok? ==> acc <= r.value
  {
    MarrDivBeforeDeath(t, Households(t), acc)
  }

  function US11(t: Tables, acc: seq<Message>): (r: Outcome)
    ensures r.Ok? ==> acc <= r.value
  {
    NoBigamy(t, Households(t), acc)
  }

  function US19(t: Tables, acc: seq<Message>): (r: Outcome)
    ensures r.Ok? ==> acc <= r.value
  {
    var st :- NoMarriageToCousin(t, Households(t), CousinState(acc, []));
    Ok(st.msgs)
  }

  function US23(t: Tables, acc: seq<Message>): (r: seq<Message>)
    ensures acc <= r
  {
    UniqueNamesAndBdays(People(t), [], acc)
  }

  function US24(t: Tables, acc: seq<Message>): (r: Outcome)
    ensures r.Ok? ==> acc <= r.value
  {
    UniqueSpousesInFamily(t, Households(t), [], acc)
  }

  /** `CheckForErrors.__init__`: every check in the order the constructor
      calls them, starting from the messages `acc` the analysis found. */
  function CheckAll(t: Tables, today: Date, acc: seq<Message>): (r: Outcome)
    ensures r.Ok? ==> acc <= r.value
  {
    var people, households := People(t), Households(t);
    var a1 :- US01(t, today, acc);
    var a2 :- US02(t, households, a1);
    var a3 :- US03(people, a2);
    var a4 :- US04(t, households, a3);
    var a5 :- US05(t, a4);
    var a6 :- US07(people, a5);
    var a7 :- US08(t, people, a6);
    var a8 :- US09(t, people, a7);
    var a9 :- US10(t, people, a8);
    var a10 :- US11(t, a9);
    var a11 :- US12(t, people, a10);
    var a12 :- US13(t, households, a11);
    var a13 :- US14(t, households, a12);
    var a14 :- US15(t, households, a13);
    var a15 :- US17(t, people, a14);
    var a16 :- US18(t, people, a15);
    var a17 :- US19(t, a16);
    var a18 :- US20(t, households, a17);
    var a19 :- US21(t, households, a18);
    var a20 := US23(t, a19);
    var a21 :- US24(t, a20);
    var r := US25(t, households, a21);
    assert r.Ok? ==> acc <= a1 <= a2 <= a3 <= a4 <= a5 <= a6 <= a7 <= a8 <= a9 <= a10
      <= a11 <= a12 <= a13 <= a14 <= a15 <= a16 <= a17 <= a18 <= a19 <= a20 <= a21 <= r.value;
    r
  }
}

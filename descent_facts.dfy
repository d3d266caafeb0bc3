/** US17: what the descendant search reports, and when its depth bound is
    never reached. */
module DescentFacts {
  import opened Wrappers
  import opened Strings
  import opened Messages
  import opened Records
  import opened Rules

  /** `pid` is the husband or the wife of `f`. */
  predicate HasSpouse(f: FamRec, pid: string)
  {
    f.husb == Some(pid) || f.wife == Some(pid)
  }

  /** `c` is the individual `k` or one of their descendants, at most `n - 1`
      generations below `k`, through families that exist. */
  ghost predicate Below(t: Tables, k: string, c: string, n: nat)
    decreases n
  {
    n >= 1 && k in t.inds
    && (c == k || exists fam, k2 :: fam in t.inds[k].fams && fam in t.fams && k2 in t.fams[fam].chil && Below(t, k2, c, n - 1))
  }

  /** The message US17 gives when `initial` is a spouse of the descendant
      `c`. */
  function DescendantMessage(t: Tables, initial: IndiRec, c: string): Message
    requires c in t.inds
  {
    MarriedToDescendant(Show(initial.name), Show(t.inds[c].name))
  }

  /** `m` is the message for a family of `c` that `pid` is a spouse in. */
  ghost predicate Hit(t: Tables, pid: string, initial: IndiRec, c: string, m: Message)
  {
    c in t.inds && (exists fam :: fam in t.inds[c].fams && fam in t.fams && HasSpouse(t.fams[fam], pid))
    && m == DescendantMessage(t, initial, c)
  }

  /** `m` is the message for `k` or a descendant of `k` within `n - 1`
      generations that `pid` is married to. */
  ghost predicate Reports(t: Tables, pid: string, initial: IndiRec, k: string, n: nat, m: Message)
  {
    exists c :: Below(t, k, c, n) && Hit(t, pid, initial, c, m)
  }

  /** `m` is reported from one of `kids`. */
  ghost predicate KidsReport(t: Tables, pid: string, initial: IndiRec, kids: seq<string>, n: nat, m: Message)
  {
    exists j :: 0 <= j < |kids| && Reports(t, pid, initial, kids[j], n, m)
  }

  /** `m` is reported from the family `fam` of `k`: `k` themself when `pid`
      is one of its spouses, or one of its children. */
  ghost predicate FamReport(t: Tables, pid: string, initial: IndiRec, k: string, fam: string, n: nat, m: Message)
  {
    fam in t.fams
    && ((k in t.inds && HasSpouse(t.fams[fam], pid) && m == DescendantMessage(t, initial, k))
        || KidsReport(t, pid, initial, Sorted(t.fams[fam].chil), n, m))
  }

  /** `m` is reported from one of the families `fams` of `k`. */
  ghost predicate FamsReport(t: Tables, pid: string, initial: IndiRec, k: string, fams: seq<string>, n: nat, m: Message)
  {
    exists j :: 0 <= j < |fams| && FamReport(t, pid, initial, k, fams[j], n, m)
  }

  /** A report from `k` is a report from the family of `k` it is made in:
      `k` themself, or a child and their descendants. */
  lemma ReportsFromFamily(t: Tables, pid: string, initial: IndiRec, k: string, n: nat, m: Message)
    requires n >= 1
    ensures Reports(t, pid, initial, k, n, m) ==> k in t.inds && FamsReport(t, pid, initial, k, Sorted(t.inds[k].fams), n - 1, m)
  {
    if Reports(t, pid, initial, k, n, m) {
      var c :| Below(t, k, c, n) && Hit(t, pid, initial, c, m);
      var fams := Sorted(t.inds[k].fams);
      SortedMembers(t.inds[k].fams);
      if c == k {
        var fam :| fam in t.inds[c].fams && fam in t.fams && HasSpouse(t.fams[fam], pid);
        var j :| 0 <= j < |fams| && fams[j] == fam;
        assert FamReport(t, pid, initial, k, fams[j], n - 1, m);
      } else {
        var fam, k2 := BelowChild(t, k, c, n);
        var kids := Sorted(t.fams[fam].chil);
        SortedMembers(t.fams[fam].chil);
        var i :| 0 <= i < |kids| && kids[i] == k2;
        assert Reports(t, pid, initial, kids[i], n - 1, m);
        var j :| 0 <= j < |fams| && fams[j] == fam;
        assert FamReport(t, pid, initial, k, fams[j], n - 1, m);
      }
    }
  }

  /** A report from a child of the family `fam` of `k` is a report from `k`. */
  lemma ReportOfChild(t: Tables, pid: string, initial: IndiRec, k: string, fam: string, n: nat, m: Message)
    requires n >= 1 && k in t.inds && fam in t.inds[k].fams && fam in t.fams
    requires KidsReport(t, pid, initial, Sorted(t.fams[fam].chil), n - 1, m)
    ensures Reports(t, pid, initial, k, n, m)
  {
    var kids := Sorted(t.fams[fam].chil);
    var i :| 0 <= i < |kids| && Reports(t, pid, initial, kids[i], n - 1, m);
    SortedMembers(t.fams[fam].chil);
    var c :| Below(t, kids[i], c, n - 1) && Hit(t, pid, initial, c, m);
    BelowStep(t, k, fam, kids[i], c, n);
  }

  /** A report from the family `fam` of `k` is a report from `k`. */
  lemma ReportOfFamily(t: Tables, pid: string, initial: IndiRec, k: string, fam: string, n: nat, m: Message)
    requires n >= 1 && k in t.inds && fam in t.inds[k].fams
    requires FamReport(t, pid, initial, k, fam, n - 1, m)
    ensures Reports(t, pid, initial, k, n, m)
  {
    if HasSpouse(t.fams[fam], pid) && m == DescendantMessage(t, initial, k) {
      assert Below(t, k, k, n) && Hit(t, pid, initial, k, m);
    } else {
      ReportOfChild(t, pid, initial, k, fam, n, m);
    }
  }

  /** A report from a family of `k` is a report from `k`. */
  lemma ReportsOfFamily(t: Tables, pid: string, initial: IndiRec, k: string, n: nat, m: Message)
    requires n >= 1 && k in t.inds
    ensures FamsReport(t, pid, initial, k, Sorted(t.inds[k].fams), n - 1, m) ==> Reports(t, pid, initial, k, n, m)
  {
    var fams := Sorted(t.inds[k].fams);
    if FamsReport(t, pid, initial, k, fams, n - 1, m) {
      var j :| 0 <= j < |fams| && FamReport(t, pid, initial, k, fams[j], n - 1, m);
      SortedMembers(t.inds[k].fams);
      ReportOfFamily(t, pid, initial, k, fams[j], n, m);
    }
  }

  lemma FamsReportSplit(t: Tables, pid: string, initial: IndiRec, k: string, fams: seq<string>, n: nat, m: Message)
    requires fams != []
    ensures FamsReport(t, pid, initial, k, fams, n, m) <==>
      FamReport(t, pid, initial, k, fams[0], n, m) || FamsReport(t, pid, initial, k, fams[1..], n, m)
  {
    if FamsReport(t, pid, initial, k, fams, n, m) {
      var j :| 0 <= j < |fams| && FamReport(t, pid, initial, k, fams[j], n, m);
      if j > 0 {
        assert fams[1..][j - 1] == fams[j];
      }
    }
    if FamsReport(t, pid, initial, k, fams[1..], n, m) {
      var j :| 0 <= j < |fams[1..]| && FamReport(t, pid, initial, k, fams[1..][j], n, m);
      assert fams[1..][j] == fams[j + 1];
    }
  }

  lemma KidsReportSplit(t: Tables, pid: string, initial: IndiRec, kids: seq<string>, n: nat, m: Message)
    requires kids != []
    ensures KidsReport(t, pid, initial, kids, n, m) <==>
      Reports(t, pid, initial, kids[0], n, m) || KidsReport(t, pid, initial, kids[1..], n, m)
  {
    if KidsReport(t, pid, initial, kids, n, m) {
      var j :| 0 <= j < |kids| && Reports(t, pid, initial, kids[j], n, m);
      if j > 0 {
        assert kids[1..][j - 1] == kids[j];
      }
    }
    if KidsReport(t, pid, initial, kids[1..], n, m) {
      var j :| 0 <= j < |kids[1..]| && Reports(t, pid, initial, kids[1..][j], n, m);
      assert kids[1..][j] == kids[j + 1];
    }
  }

  /** `descendants_help(initial, t.inds[k])`: when the search ends without an
      error, it has reported exactly the descendants of `k` within `fuel - 1`
      generations, `k` included, that `pid` is a spouse of. */
  lemma {:induction false} HelpReports(t: Tables, pid: string, initial: IndiRec, k: string, fuel: nat, acc: seq<Message>)
    requires k in t.inds
    ensures var r := DescendantsHelp(t, pid, initial, t.inds[k], fuel, acc);
      r.Ok? ==> forall m :: m in r.value[|acc|..] <==> Reports(t, pid, initial, k, fuel, m)
    decreases fuel, 0, 0
  {
    if fuel >= 1 {
      var r := DescendantsHelp(t, pid, initial, t.inds[k], fuel, acc);
      FamiliesReports(t, pid, initial, k, Sorted(t.inds[k].fams), fuel - 1, acc);
      if r.Ok? {
        forall m
          ensures m in r.value[|acc|..] <==> Reports(t, pid, initial, k, fuel, m)
        {
          ReportsFromFamily(t, pid, initial, k, fuel, m);
          ReportsOfFamily(t, pid, initial, k, fuel, m);
        }
      }
    }
  }

  /** The search through the families `fams` of `k` reports exactly what
      each of them reports. */
  lemma {:induction false} FamiliesReports(t: Tables, pid: string, initial: IndiRec, k: string, fams: seq<string>, fuel: nat, acc: seq<Message>)
    requires k in t.inds
    ensures var r := DescendantFamilies(t, pid, initial, t.inds[k], fams, fuel, acc);
      r.Ok? ==> forall m :: m in r.value[|acc|..] <==> FamsReport(t, pid, initial, k, fams, fuel, m)
    decreases fuel, 3, |fams|
  {
    var r := DescendantFamilies(t, pid, initial, t.inds[k], fams, fuel, acc);
    if fams != [] && r.Ok? {
      var first := DescendantFamily(t, pid, initial, t.inds[k], fams[0], fuel, acc);
      assert first.Ok?;
      assert r == DescendantFamilies(t, pid, initial, t.inds[k], fams[1..], fuel, first.value);
      FamilyReports(t, pid, initial, k, fams[0], fuel, acc);
      FamiliesReports(t, pid, initial, k, fams[1..], fuel, first.value);
      assert r.value[|acc|..] == first.value[|acc|..] + r.value[|first.value|..];
      forall m
        ensures m in r.value[|acc|..] <==> FamsReport(t, pid, initial, k, fams, fuel, m)
      {
        FamsReportSplit(t, pid, initial, k, fams, fuel, m);
      }
    }
  }

  /** The search through the family `fam` of `k` reports `k` when `pid` is
      one of its spouses, and then what its children report. */
  lemma {:induction false} FamilyReports(t: Tables, pid: string, initial: IndiRec, k: string, fam: string, fuel: nat, acc: seq<Message>)
    requires k in t.inds
    ensures var r := DescendantFamily(t, pid, initial, t.inds[k], fam, fuel, acc);
      r.Ok? ==> forall m :: m in r.value[|acc|..] <==> FamReport(t, pid, initial, k, fam, fuel, m)
    decreases fuel, 2, 0
  {
    var r := DescendantFamily(t, pid, initial, t.inds[k], fam, fuel, acc);
    if r.Ok? {
      var f := t.fams[fam];
      var married := SpouseIs(t, f, pid).value;
      var acc1 := if married then acc + [DescendantMessage(t, initial, k)] else acc;
      assert r == DescendantChildren(t, pid, initial, Sorted(f.chil), fuel, acc1);
      ChildrenReports(t, pid, initial, Sorted(f.chil), fuel, acc1);
      assert r.value[|acc|..] == acc1[|acc|..] + r.value[|acc1|..];
      forall m
        ensures m in r.value[|acc|..] <==> FamReport(t, pid, initial, k, fam, fuel, m)
      {
        if married {
          assert acc1[|acc|..] == [DescendantMessage(t, initial, k)];
        }
      }
    }
  }

  /** The search from each of the children `kids` reports exactly what each
      child's own search reports. */
  lemma {:induction false} ChildrenReports(t: Tables, pid: string, initial: IndiRec, kids: seq<string>, fuel: nat, acc: seq<Message>)
    ensures var r := DescendantChildren(t, pid, initial, kids, fuel, acc);
      r.Ok? ==> forall m :: m in r.value[|acc|..] <==> KidsReport(t, pid, initial, kids, fuel, m)
    decreases fuel, 1, |kids|
  {
    var r := DescendantChildren(t, pid, initial, kids, fuel, acc);
    if kids != [] && r.Ok? {
      assert kids[0] in t.inds;
      var first := DescendantsHelp(t, pid, initial, t.inds[kids[0]], fuel, acc);
      assert first.Ok?;
      assert r == DescendantChildren(t, pid, initial, kids[1..], fuel, first.value);
      HelpReports(t, pid, initial, kids[0], fuel, acc);
      ChildrenReports(t, pid, initial, kids[1..], fuel, first.value);
      assert r.value[|acc|..] == first.value[|acc|..] + r.value[|first.value|..];
      forall m
        ensures m in r.value[|acc|..] <==> KidsReport(t, pid, initial, kids, fuel, m)
      {
        KidsReportSplit(t, pid, initial, kids, fuel, m);
      }
    }
  }

  /** `m` is reported from a child of one of the families `fams`. */
  ghost predicate FamsKidsReport(t: Tables, pid: string, initial: IndiRec, fams: seq<string>, n: nat, m: Message)
  {
    exists j :: 0 <= j < |fams| && FamKidsReport(t, pid, initial, fams[j], n, m)
  }

  /** `m` is reported from a child of the family `fam`. */
  ghost predicate FamKidsReport(t: Tables, pid: string, initial: IndiRec, fam: string, n: nat, m: Message)
  {
    fam in t.fams && KidsReport(t, pid, initial, Sorted(t.fams[fam].chil), n, m)
  }

  /** US17 for the families `fams` of `initial`: what the searches from
      their children report. */
  lemma {:induction false} NoMarriageToDescendantsReports(t: Tables, pid: string, initial: IndiRec, fams: seq<string>, acc: seq<Message>)
    ensures var r := NoMarriageToDescendants(t, pid, initial, fams, acc);
      r.Ok? ==> forall m :: m in r.value[|acc|..] <==> FamsKidsReport(t, pid, initial, fams, SearchDepth(t), m)
    decreases |fams|
  {
    var r := NoMarriageToDescendants(t, pid, initial, fams, acc);
    if fams != [] && r.Ok? {
      var kids := Sorted(t.fams[fams[0]].chil);
      var first := DescendantChildren(t, pid, initial, kids, SearchDepth(t), acc);
      assert first.Ok?;
      assert r == NoMarriageToDescendants(t, pid, initial, fams[1..], first.value);
      ChildrenReports(t, pid, initial, kids, SearchDepth(t), acc);
      NoMarriageToDescendantsReports(t, pid, initial, fams[1..], first.value);
      assert r.value[|acc|..] == first.value[|acc|..] + r.value[|first.value|..];
      forall m
        ensures m in r.value[|acc|..] <==> FamsKidsReport(t, pid, initial, fams, SearchDepth(t), m)
      {
        FamsKidsReportSplit(t, pid, initial, fams, SearchDepth(t), m);
      }
    }
  }

  /** A report from a child of the families `fams` is one from the first
      family or from the others. */
  lemma FamsKidsReportCases(t: Tables, pid: string, initial: IndiRec, fams: seq<string>, n: nat, m: Message)
    requires fams != [] && FamsKidsReport(t, pid, initial, fams, n, m)
    ensures FamKidsReport(t, pid, initial, fams[0], n, m) || FamsKidsReport(t, pid, initial, fams[1..], n, m)
  {
    var j :| 0 <= j < |fams| && FamKidsReport(t, pid, initial, fams[j], n, m);
    if j > 0 {
      assert fams[1..][j - 1] == fams[j];
    }
  }

  /** A report from a child of the families `fams[1..]` is one from a child
      of `fams`. */
  lemma FamsKidsReportOfRest(t: Tables, pid: string, initial: IndiRec, fams: seq<string>, n: nat, m: Message)
    requires fams != [] && FamsKidsReport(t, pid, initial, fams[1..], n, m)
    ensures FamsKidsReport(t, pid, initial, fams, n, m)
  {
    var j :| 0 <= j < |fams[1..]| && FamKidsReport(t, pid, initial, fams[1..][j], n, m);
    assert fams[1..][j] == fams[j + 1];
  }

  lemma FamsKidsReportSplit(t: Tables, pid: string, initial: IndiRec, fams: seq<string>, n: nat, m: Message)
    requires fams != []
    ensures FamsKidsReport(t, pid, initial, fams, n, m) <==>
      FamKidsReport(t, pid, initial, fams[0], n, m) || FamsKidsReport(t, pid, initial, fams[1..], n, m)
  {
    if FamsKidsReport(t, pid, initial, fams, n, m) {
      FamsKidsReportCases(t, pid, initial, fams, n, m);
    }
    if FamsKidsReport(t, pid, initial, fams[1..], n, m) {
      FamsKidsReportOfRest(t, pid, initial, fams, n, m);
    }
    if FamKidsReport(t, pid, initial, fams[0], n, m) {
      assert FamsKidsReport(t, pid, initial, fams, n, m);
    }
  }

  /** `c` is a child of `p`, or a descendant of such a child at most
      `n - 1` generations further down. */
  ghost predicate DescendantWithin(t: Tables, p: IndiRec, c: string, n: nat)
  {
    exists fam, k :: fam in p.fams && fam in t.fams && k in t.fams[fam].chil && Below(t, k, c, n)
  }

  /** A report from a child of a family of `p` is a report about a
      descendant of `p`. */
  lemma DescendantOfReport(t: Tables, pid: string, p: IndiRec, n: nat, m: Message)
    ensures FamsKidsReport(t, pid, p, Sorted(p.fams), n, m) ==> exists c :: DescendantWithin(t, p, c, n) && Hit(t, pid, p, c, m)
  {
    var fams := Sorted(p.fams);
    if FamsKidsReport(t, pid, p, fams, n, m) {
      var j :| 0 <= j < |fams| && FamKidsReport(t, pid, p, fams[j], n, m);
      SortedMembers(p.fams);
      var kids := Sorted(t.fams[fams[j]].chil);
      var i :| 0 <= i < |kids| && Reports(t, pid, p, kids[i], n, m);
      SortedMembers(t.fams[fams[j]].chil);
      var c :| Below(t, kids[i], c, n) && Hit(t, pid, p, c, m);
      assert fams[j] in p.fams && kids[i] in t.fams[fams[j]].chil;
      assert DescendantWithin(t, p, c, n);
    }
  }

  /** A report about a descendant of `p` is a report from a child of a
      family of `p`. */
  lemma ReportOfDescendant(t: Tables, pid: string, p: IndiRec, n: nat, m: Message)
    ensures (exists c :: DescendantWithin(t, p, c, n) && Hit(t, pid, p, c, m)) ==> FamsKidsReport(t, pid, p, Sorted(p.fams), n, m)
  {
    var fams := Sorted(p.fams);
    if exists c :: DescendantWithin(t, p, c, n) && Hit(t, pid, p, c, m) {
      var c :| DescendantWithin(t, p, c, n) && Hit(t, pid, p, c, m);
      var fam, k :| fam in p.fams && fam in t.fams && k in t.fams[fam].chil && Below(t, k, c, n);
      SortedMembers(p.fams);
      var j :| 0 <= j < |fams| && fams[j] == fam;
      var kids := Sorted(t.fams[fam].chil);
      SortedMembers(t.fams[fam].chil);
      var i :| 0 <= i < |kids| && kids[i] == k;
      assert Reports(t, pid, p, kids[i], n, m);
      assert FamKidsReport(t, pid, p, fams[j], n, m);
    }
  }

  /** US17 for the individual `pid`, whose record is `p`: when the search
      ends without an error, it has reported every descendant of `p`, within
      as many generations as there are individuals, that `pid` is a spouse
      of, and nothing else. */
  lemma NoMarriageToDescendantsMeaning(t: Tables, pid: string, p: IndiRec, acc: seq<Message>)
    ensures var r := NoMarriageToDescendants(t, pid, p, Sorted(p.fams), acc);
      r.Ok? ==> forall m :: m in r.value[|acc|..] <==>
        exists c :: DescendantWithin(t, p, c, SearchDepth(t)) && Hit(t, pid, p, c, m)
  {
    var r := NoMarriageToDescendants(t, pid, p, Sorted(p.fams), acc);
    NoMarriageToDescendantsReports(t, pid, p, Sorted(p.fams), acc);
    if r.Ok? {
      forall m
        ensures m in r.value[|acc|..] <==> exists c :: DescendantWithin(t, p, c, SearchDepth(t)) && Hit(t, pid, p, c, m)
      {
        DescendantOfReport(t, pid, p, SearchDepth(t), m);
        ReportOfDescendant(t, pid, p, SearchDepth(t), m);
      }
    }
  }

  // ---------------------------------------------------------------------------
  // The depth bound on data without descent cycles
  // ---------------------------------------------------------------------------

  /** The descent between individuals has no cycle: `rank` gives every
      individual a generation number below the number of individuals, and
      every child that is an individual has a smaller one than each parent. */
  ghost predicate Ranked(t: Tables, rank: map<string, nat>)
  {
    (forall k :: k in t.inds ==> k in rank && rank[k] < |t.inds|) && RanksDescend(t, rank)
  }

  /** Every child that is an individual ranks below each parent. */
  ghost predicate RanksDescend(t: Tables, rank: map<string, nat>)
  {
    forall k, fam, c :: k in t.inds && fam in t.inds[k].fams && fam in t.fams && c in t.fams[fam].chil && c in t.inds
      ==> k in rank && c in rank && rank[c] < rank[k]
  }

  /** The search from `t.inds[k]` with more fuel than the rank of `k` does not
      run out of fuel. */
  lemma {:induction false} HelpWithinBound(t: Tables, rank: map<string, nat>, pid: string, initial: IndiRec, k: string, fuel: nat, acc: seq<Message>)
    requires Ranked(t, rank) && k in t.inds && rank[k] < fuel
    ensures DescendantsHelp(t, pid, initial, t.inds[k], fuel, acc) != Err(RecursionError)
    decreases fuel, 0, 0
  {
    SortedMembers(t.inds[k].fams);
    FamiliesWithinBound(t, rank, pid, initial, k, Sorted(t.inds[k].fams), fuel - 1, acc);
  }

  lemma {:induction false} FamiliesWithinBound(t: Tables, rank: map<string, nat>, pid: string, initial: IndiRec, k: string, fams: seq<string>, fuel: nat, acc: seq<Message>)
    requires Ranked(t, rank) && k in t.inds && rank[k] <= fuel
    requires forall j :: 0 <= j < |fams| ==> fams[j] in t.inds[k].fams
    ensures DescendantFamilies(t, pid, initial, t.inds[k], fams, fuel, acc) != Err(RecursionError)
    decreases fuel, 3, |fams|
  {
    if fams != [] {
      FamilyWithinBound(t, rank, pid, initial, k, fams[0], fuel, acc);
      var first := DescendantFamily(t, pid, initial, t.inds[k], fams[0], fuel, acc);
      if first.Ok? {
        FamiliesWithinBound(t, rank, pid, initial, k, fams[1..], fuel, first.value);
      }
    }
  }

  lemma {:induction false} FamilyWithinBound(t: Tables, rank: map<string, nat>, pid: string, initial: IndiRec, k: string, fam: string, fuel: nat, acc: seq<Message>)
    requires Ranked(t, rank) && k in t.inds && rank[k] <= fuel && fam in t.inds[k].fams
    ensures DescendantFamily(t, pid, initial, t.inds[k], fam, fuel, acc) != Err(RecursionError)
    decreases fuel, 2, 0
  {
    if fam in t.fams && SpouseIs(t, t.fams[fam], pid).Ok? {
      var f := t.fams[fam];
      var acc1 := if SpouseIs(t, f, pid).value then acc + [DescendantMessage(t, initial, k)] else acc;
      SortedMembers(f.chil);
      ChildrenWithinBound(t, rank, pid, initial, Sorted(f.chil), fuel, acc1);
    }
  }

  lemma {:induction false} ChildrenWithinBound(t: Tables, rank: map<string, nat>, pid: string, initial: IndiRec, kids: seq<string>, fuel: nat, acc: seq<Message>)
    requires Ranked(t, rank)
    requires forall j :: 0 <= j < |kids| && kids[j] in t.inds ==> rank[kids[j]] < fuel
    ensures DescendantChildren(t, pid, initial, kids, fuel, acc) != Err(RecursionError)
    decreases fuel, 1, |kids|
  {
    if kids != [] && kids[0] in t.inds {
      HelpWithinBound(t, rank, pid, initial, kids[0], fuel, acc);
      var first := DescendantsHelp(t, pid, initial, t.inds[kids[0]], fuel, acc);
      if first.Ok? {
        assert forall j :: 0 <= j < |kids[1..]| ==> kids[1..][j] == kids[j + 1];
        ChildrenWithinBound(t, rank, pid, initial, kids[1..], fuel, first.value);
      }
    }
  }

  /** US17 for one individual on data without descent cycles: the depth
      bound, the number of individuals, is never reached, so the search
      never raises `RecursionError`. */
  lemma {:induction false} NoMarriageToDescendantsWithinBound(t: Tables, rank: map<string, nat>, pid: string, p: IndiRec, fams: seq<string>, acc: seq<Message>)
    requires Ranked(t, rank)
    ensures NoMarriageToDescendants(t, pid, p, fams, acc) != Err(RecursionError)
    decreases |fams|
  {
    if fams != [] && fams[0] in t.fams {
      var kids := Sorted(t.fams[fams[0]].chil);
      ChildrenWithinBound(t, rank, pid, p, kids, SearchDepth(t), acc);
      var first := DescendantChildren(t, pid, p, kids, SearchDepth(t), acc);
      if first.Ok? {
        NoMarriageToDescendantsWithinBound(t, rank, pid, p, fams[1..], first.value);
      }
    }
  }

  /** US17 over the individuals `xs` on data without descent cycles: it
      never raises `RecursionError`. */
  lemma {:induction false} US17WithinBound(t: Tables, rank: map<string, nat>, xs: seq<(string, IndiRec)>, acc: seq<Message>)
    requires Ranked(t, rank)
    ensures US17(t, xs, acc) != Err(RecursionError)
    decreases |xs|
  {
    if xs != [] {
      NoMarriageToDescendantsWithinBound(t, rank, xs[0].0, xs[0].1, Sorted(xs[0].1.fams), acc);
      var first := NoMarriageToDescendants(t, xs[0].0, xs[0].1, Sorted(xs[0].1.fams), acc);
      if first.Ok? {
        US17WithinBound(t, rank, xs[1..], first.value);
      }
    }
  }

  /** A descendant of a child within `n - 1` generations is a descendant of
      the parent within `n`. */
  lemma BelowStep(t: Tables, k: string, fam: string, k2: string, c: string, n: nat)
    requires n >= 1 && k in t.inds && fam in t.inds[k].fams && fam in t.fams && k2 in t.fams[fam].chil
    requires Below(t, k2, c, n - 1)
    ensures Below(t, k, c, n)
  {
  }

  /** Without descent cycles, a child ranks below each parent. */
  lemma RankDecreases(t: Tables, rank: map<string, nat>, k: string, fam: string, k2: string)
    requires RanksDescend(t, rank) && k in t.inds && fam in t.inds[k].fams && fam in t.fams && k2 in t.fams[fam].chil && k2 in t.inds
    ensures k2 in rank && rank[k2] < rank[k]
  {
  }

  /** A descendant of `k` other than `k` descends from a child of one of
      `k`'s families. */
  lemma BelowChild(t: Tables, k: string, c: string, n: nat) returns (fam: string, k2: string)
    requires Below(t, k, c, n) && c != k
    ensures n >= 1 && k in t.inds && fam in t.inds[k].fams && fam in t.fams && k2 in t.fams[fam].chil && Below(t, k2, c, n - 1)
  {
    fam, k2 :| fam in t.inds[k].fams && fam in t.fams && k2 in t.fams[fam].chil && Below(t, k2, c, n - 1);
  }

  /** Without descent cycles, a descendant of `k` is at most `rank[k]`
      generations below `k`: within any `b` above that rank. */
  lemma {:induction false} BelowRank(t: Tables, rank: map<string, nat>, k: string, c: string, n: nat, b: nat)
    requires RanksDescend(t, rank) && Below(t, k, c, n) && k in rank && rank[k] < b
    ensures Below(t, k, c, b)
    decreases n
  {
    if c != k {
      var fam, k2 := BelowChild(t, k, c, n);
      RankDecreases(t, rank, k, fam, k2);
      BelowRank(t, rank, k2, c, n - 1, b - 1);
      BelowStep(t, k, fam, k2, c, b);
    }
  }

  /** Without descent cycles, the depth bound of US17 leaves out no
      descendant: every descendant of `p`, at any depth, is within it. */
  lemma DescendantsWithinBound(t: Tables, rank: map<string, nat>, p: IndiRec, c: string, n: nat)
    requires Ranked(t, rank)
    ensures DescendantWithin(t, p, c, n) ==> DescendantWithin(t, p, c, SearchDepth(t))
  {
    if DescendantWithin(t, p, c, n) {
      var fam, k :| fam in p.fams && fam in t.fams && k in t.fams[fam].chil && Below(t, k, c, n);
      BelowRank(t, rank, k, c, n, SearchDepth(t));
    }
  }

  // ---------------------------------------------------------------------------
  // When the search raises
  // ---------------------------------------------------------------------------

  /** `descendants_help` raises only `KeyError`, for a family, child or
      spouse id that is not a key (or a missing spouse), and
      `RecursionError`; on linked tables, from an individual whose families
      are keys, only `RecursionError`. */
  lemma {:induction false} HelpRaises(t: Tables, pid: string, initial: IndiRec, current: IndiRec, fuel: nat, acc: seq<Message>)
    ensures var r := DescendantsHelp(t, pid, initial, current, fuel, acc);
      r.Err? ==> r.error == KeyError || r.error == RecursionError
    ensures var r := DescendantsHelp(t, pid, initial, current, fuel, acc);
      r.Err? && Linked(t) && (forall fam :: fam in current.fams ==> fam in t.fams) ==> r.error == RecursionError
    decreases fuel, 0, 0
  {
    if fuel > 0 {
      SortedMembers(current.fams);
      FamiliesRaises(t, pid, initial, current, Sorted(current.fams), fuel - 1, acc);
    }
  }

  /** The same for the search through the families `fams`. */
  lemma {:induction false} FamiliesRaises(t: Tables, pid: string, initial: IndiRec, current: IndiRec, fams: seq<string>, fuel: nat, acc: seq<Message>)
    ensures var r := DescendantFamilies(t, pid, initial, current, fams, fuel, acc);
      r.Err? ==> r.error == KeyError || r.error == RecursionError
    ensures var r := DescendantFamilies(t, pid, initial, current, fams, fuel, acc);
      r.Err? && Linked(t) && (forall j :: 0 <= j < |fams| ==> fams[j] in t.fams) ==> r.error == RecursionError
    decreases fuel, 3, |fams|
  {
    if fams != [] {
      FamilyRaises(t, pid, initial, current, fams[0], fuel, acc);
      var first := DescendantFamily(t, pid, initial, current, fams[0], fuel, acc);
      if first.Ok? {
        assert forall j :: 0 <= j < |fams[1..]| ==> fams[1..][j] == fams[j + 1];
        FamiliesRaises(t, pid, initial, current, fams[1..], fuel, first.value);
      }
    }
  }

  /** The same for the search through the family `fam`. */
  lemma {:induction false} FamilyRaises(t: Tables, pid: string, initial: IndiRec, current: IndiRec, fam: string, fuel: nat, acc: seq<Message>)
    ensures var r := DescendantFamily(t, pid, initial, current, fam, fuel, acc);
      r.Err? ==> r.error == KeyError || r.error == RecursionError
    ensures var r := DescendantFamily(t, pid, initial, current, fam, fuel, acc);
      r.Err? && Linked(t) && fam in t.fams ==> r.error == RecursionError
    decreases fuel, 2, 0
  {
    if fam in t.fams && SpouseIs(t, t.fams[fam], pid).Ok? {
      var f := t.fams[fam];
      var acc1 := if SpouseIs(t, f, pid).value then acc + [MarriedToDescendant(Show(initial.name), Show(current.name))] else acc;
      SortedMembers(f.chil);
      ChildrenRaises(t, pid, initial, Sorted(f.chil), fuel, acc1);
    }
  }

  /** The same for the searches from the children `kids`. */
  lemma {:induction false} ChildrenRaises(t: Tables, pid: string, initial: IndiRec, kids: seq<string>, fuel: nat, acc: seq<Message>)
    ensures var r := DescendantChildren(t, pid, initial, kids, fuel, acc);
      r.Err? ==> r.error == KeyError || r.error == RecursionError
    ensures var r := DescendantChildren(t, pid, initial, kids, fuel, acc);
      r.Err? && Linked(t) && (forall j :: 0 <= j < |kids| ==> kids[j] in t.inds) ==> r.error == RecursionError
    decreases fuel, 1, |kids|
  {
    if kids != [] && kids[0] in t.inds {
      HelpRaises(t, pid, initial, t.inds[kids[0]], fuel, acc);
      var first := DescendantsHelp(t, pid, initial, t.inds[kids[0]], fuel, acc);
      if first.Ok? {
        assert forall j :: 0 <= j < |kids[1..]| ==> kids[1..][j] == kids[j + 1];
        ChildrenRaises(t, pid, initial, kids[1..], fuel, first.value);
      }
    }
  }

  /** US17 for one individual and their families `fams`: the same. */
  lemma {:induction false} NoMarriageToDescendantsRaises(t: Tables, pid: string, p: IndiRec, fams: seq<string>, acc: seq<Message>)
    ensures var r := NoMarriageToDescendants(t, pid, p, fams, acc);
      r.Err? ==> r.error == KeyError || r.error == RecursionError
    ensures var r := NoMarriageToDescendants(t, pid, p, fams, acc);
      r.Err? && Linked(t) && (forall j :: 0 <= j < |fams| ==> fams[j] in t.fams) ==> r.error == RecursionError
    decreases |fams|
  {
    if fams != [] && fams[0] in t.fams {
      var kids := Sorted(t.fams[fams[0]].chil);
      SortedMembers(t.fams[fams[0]].chil);
      ChildrenRaises(t, pid, p, kids, SearchDepth(t), acc);
      var first := DescendantChildren(t, pid, p, kids, SearchDepth(t), acc);
      if first.Ok? {
        assert forall j :: 0 <= j < |fams[1..]| ==> fams[1..][j] == fams[j + 1];
        NoMarriageToDescendantsRaises(t, pid, p, fams[1..], first.value);
      }
    }
  }

  /** US17 over the individuals `xs`, each listed with its own record: the
      same. */
  lemma {:induction false} US17Raises(t: Tables, xs: seq<(string, IndiRec)>, acc: seq<Message>)
    ensures var r := US17(t, xs, acc);
      r.Err? ==> r.error == KeyError || r.error == RecursionError
    ensures var r := US17(t, xs, acc);
      (r.Err? && Linked(t) && forall j :: 0 <= j < |xs| ==> xs[j].0 in t.inds && xs[j].1 == t.inds[xs[j].0]) ==>
        r.error == RecursionError
    decreases |xs|
  {
    if xs != [] {
      SortedMembers(xs[0].1.fams);
      NoMarriageToDescendantsRaises(t, xs[0].0, xs[0].1, Sorted(xs[0].1.fams), acc);
      var first := NoMarriageToDescendants(t, xs[0].0, xs[0].1, Sorted(xs[0].1.fams), acc);
      if first.Ok? {
        assert forall j :: 0 <= j < |xs[1..]| ==> xs[1..][j] == xs[j + 1];
        US17Raises(t, xs[1..], first.value);
      }
    }
  }

  /** `no_marriage_to_descendants` over the whole individual table raises
      only `KeyError` or `RecursionError`: `KeyError` only when some record
      refers to an id that is not a key, or a family lacks a spouse, and
      `RecursionError` only when the descent has a cycle. On linked tables
      without descent cycles it always completes. */
  lemma US17Outcome(t: Tables, acc: seq<Message>)
    ensures var r := US17(t, People(t), acc);
      r.Err? ==> r.error == KeyError || r.error == RecursionError
    ensures US17(t, People(t), acc) == Err(KeyError) ==> !Linked(t)
    ensures US17(t, People(t), acc) == Err(RecursionError) ==> forall rank :: !Ranked(t, rank)
    ensures Linked(t) && (exists rank :: Ranked(t, rank)) ==> US17(t, People(t), acc).Ok?
  {
    US17Raises(t, People(t), acc);
    forall rank | Ranked(t, rank)
      ensures US17(t, People(t), acc) != Err(RecursionError)
    {
      US17WithinBound(t, rank, People(t), acc);
    }
  }
}

/** The line tokenizer of project03_Parser1.py: `parseArgs` cuts a GEDCOM
    line at its second space, `parseLine` splits the part before it into
    level and tag. */
module Parser1 {
  import opened Wrappers
  import opened Strings

  /** The number of spaces in `s`. */
  function Spaces(s: string): nat
  {
    multiset(s)[' ']
  }

  lemma SpacesAppend(a: string, b: string)
    ensures Spaces(a + b) == Spaces(a) + Spaces(b)
  {
    assert multiset(a + b) == multiset(a) + multiset(b);
  }

  /** The index of the space of `s` that has `n` spaces before it, if there
      is one. */
  function NthSpace(s: string, n: nat): (r: Option<nat>)
    ensures r.Some? ==> r.value < |s| && s[r.value] == ' ' && Spaces(s[..r.value]) == n
    ensures r.None? ==> Spaces(s) <= n
    decreases |s|
  {
    if s == [] then None
    else if s[0] == ' ' && n == 0 then Some(0)
    else
      var r := NthSpace(s[1..], if s[0] == ' ' then n - 1 else n);
      NthSpaceStep(s, n, r);
      if r.None? then None else Some(r.value + 1)
  }

  /** A space found past the first character, or none found there, read
      from the whole string. */
  lemma NthSpaceStep(s: string, n: nat, r: Option<nat>)
    requires s != [] && !(s[0] == ' ' && n == 0)
    requires var n1 := if s[0] == ' ' then n - 1 else n;
      (r.Some? ==> r.value < |s[1..]| && s[1..][r.value] == ' ' && Spaces(s[1..][..r.value]) == n1)
      && (r.None? ==> Spaces(s[1..]) <= n1)
    ensures r.Some? ==> r.value + 1 < |s| && s[r.value + 1] == ' ' && Spaces(s[..r.value + 1]) == n
    ensures r.None? ==> Spaces(s) <= n
  {
    assert s == [s[0]] + s[1..];
    SpacesAppend([s[0]], s[1..]);
    if r.Some? {
      assert s[..r.value + 1] == [s[0]] + s[1..][..r.value];
      SpacesAppend([s[0]], s[1..][..r.value]);
    }
  }

  /** A space with `n` spaces before it is the one `NthSpace` finds. */
  lemma {:induction false} NthSpaceUnique(s: string, n: nat, k: nat)
    requires k < |s| && s[k] == ' ' && Spaces(s[..k]) == n
    ensures NthSpace(s, n) == Some(k)
    decreases |s|
  {
    assert s == [s[0]] + s[1..];
    if k > 0 {
      assert s[..k] == [s[0]] + s[1..][..k - 1];
      SpacesAppend([s[0]], s[1..][..k - 1]);
      NthSpaceUnique(s[1..], if s[0] == ' ' then n - 1 else n, k - 1);
    }
  }

  /** What `parseArgs` returns: the text before the second space and the
      text after it, or the whole line and "" when there is no second space
      or nothing follows it. */
  function SplitArgs(line: string): (r: (string, string))
    ensures r.1 == [] ==> r.0 == line
    ensures r.1 != [] ==>
      |r.0| + 1 < |line| && line[..|r.0|] == r.0 && line[|r.0|] == ' ' && line[|r.0| + 1..] == r.1
      && Spaces(r.0) == 1
  {
    var k := NthSpace(line, 1);
    if k.Some? && k.value + 1 < |line| then (line[..k.value], line[k.value + 1..]) else (line, "")
  }

  /** One more character counted. */
  lemma SpacesStep(s: string, i: nat)
    requires i < |s|
    ensures Spaces(s[..i + 1]) == Spaces(s[..i]) + (if s[i] == ' ' then 1 else 0)
  {
    assert s[..i + 1] == s[..i] + [s[i]];
    SpacesAppend(s[..i], [s[i]]);
  }

  /** A space with one space before it and something after it is where the
      line is cut. */
  lemma CutAt(line: string, k: nat)
    requires k + 1 < |line| && line[k] == ' ' && Spaces(line[..k]) == 1
    ensures SplitArgs(line) == (line[..k], line[k + 1..])
  {
    NthSpaceUnique(line, 1, k);
  }

  /** `parseArgs`: scans the characters, counting spaces, and stops at the
      character after the second space. */
  method ParseArgs(line: string) returns (first: string, rest: string)
    ensures (first, rest) == SplitArgs(line)
  {
    var count := 0;
    var i := 0;
    while i < |line|
      invariant 0 <= i <= |line|
      invariant count == Spaces(line[..i]) && count <= 2
      invariant count == 2 ==> i > 0 && line[i - 1] == ' ' && Spaces(line[..i - 1]) == 1
    {
      if count == 2 {
        CutAt(line, i - 1);
        return line[..i - 1], line[i..];
      }
      SpacesStep(line, i);
      if line[i] == ' ' {
        count := count + 1;
      }
      i := i + 1;
    }
    assert line[..i] == line && line[i..] == [];
    NoSplitPoint(line);
    assert Spaces(line) < 2 || (Spaces(line) == 2 && line[|line| - 1] == ' ');
    return line, "";
  }

  /** The split puts the line back together: the two parts joined by the
      space between them, or the whole line when nothing was cut off. */
  lemma SplitArgsRoundTrip(line: string)
    ensures var (first, rest) := SplitArgs(line);
      (rest == [] ==> first == line) && (rest != [] ==> first + " " + rest == line)
  {
    var k := NthSpace(line, 1);
    if k.Some? && k.value + 1 < |line| {
      assert line == line[..k.value] + [line[k.value]] + line[k.value + 1..];
    }
  }

  /** When the line is cut, the first part holds exactly one space. */
  lemma SplitHeadOneSpace(line: string)
    requires SplitArgs(line).1 != []
    ensures Spaces(SplitArgs(line).0) == 1
  {
  }

  /** The line is left whole exactly when it has fewer than two spaces, or
      just two with the second one last. */
  lemma NoSplitPoint(line: string)
    ensures SplitArgs(line) == (line, "") <==>
      Spaces(line) < 2 || (Spaces(line) == 2 && line[|line| - 1] == ' ')
  {
    var k := NthSpace(line, 1);
    if k.Some? {
      var i := k.value;
      assert line == line[..i] + [line[i]] + line[i + 1..];
      SpacesAppend(line[..i] + [line[i]], line[i + 1..]);
      SpacesAppend(line[..i], [line[i]]);
      if i + 1 == |line| {
        assert line[i + 1..] == [];
      } else {
        assert |line[..i]| < |line|;
      }
    }
    if Spaces(line) == 2 && line[|line| - 1] == ' ' {
      var i := |line| - 1;
      assert line == line[..i] + [line[i]];
      SpacesAppend(line[..i], [line[i]]);
      NthSpaceUnique(line, 1, i);
    }
  }

  /** `parseLine`: level, tag and arguments; `None` where unpacking
      `start.split(" ")` raises `ValueError`, because the part before the
      cut does not hold exactly one space. */
  function ParseLine(line: string): (r: Option<(string, string, string)>)
    ensures r.Some? ==> ' ' !in r.value.0 && ' ' !in r.value.1 && r.value.2 == SplitArgs(line).1
  {
    var (start, args) := SplitArgs(line);
    var parts := Split(start, ' ');
    SplitPieces(start, ' ');
    if |parts| != 2 then None else Some((parts[0], parts[1], args))
  }

  /** `parseLine` succeeds exactly when the head holds one space; then level
      and tag hold none, the arguments are the rest of the line verbatim,
      and the three put together give back the line. */
  lemma ParseLineMeaning(line: string)
    ensures ParseLine(line).Some? <==> Spaces(SplitArgs(line).0) == 1
    ensures ParseLine(line).Some? ==>
      var (level, tag, args) := ParseLine(line).value;
      ' ' !in level && ' ' !in tag && args == SplitArgs(line).1
      && line == level + " " + tag + (if args == [] then [] else " " + args)
  {
    var (start, args) := SplitArgs(line);
    SplitPieces(start, ' ');
    SplitArgsRoundTrip(line);
    if ParseLine(line).Some? {
      var parts := Split(start, ' ');
      JoinSplit(start, ' ');
      assert Join(parts, ' ') == parts[0] + [' '] + parts[1];
    }
  }

  /** A line with two spaces or more, the second not last, always parses,
      its arguments everything after the second space, spaces included. */
  lemma ParseLongLine(line: string)
    requires Spaces(line) >= 2 && !(Spaces(line) == 2 && line[|line| - 1] == ' ')
    ensures ParseLine(line).Some?
    ensures var k := NthSpace(line, 1).value; ParseLine(line).value.2 == line[k + 1..]
  {
    var k := NthSpace(line, 1);
    NoSplitPoint(line);
    assert k.Some? && k.value + 1 < |line|;
    assert SplitArgs(line) == (line[..k.value], line[k.value + 1..]);
    ParseLineMeaning(line);
  }

  /** A line of one word has no tag: `parseLine` fails. */
  lemma OneWordLine(line: string)
    requires Spaces(line) == 0
    ensures ParseLine(line).None?
  {
    NoSplitPoint(line);
    ParseLineMeaning(line);
  }
}

/** The few string operations of Python's `str` that the checker relies on:
    ordering (for `sorted`), `replace("@", "")`, `split`, `strip("/")`,
    `int()` and `str()` of an integer. */
module Strings {
  import opened Wrappers

  // ---------------------------------------------------------------------------
  // Ordering: Python compares strings lexicographically by code point, and a
  // proper prefix sorts first.
  // ---------------------------------------------------------------------------

  predicate Le(a: string, b: string)
    decreases |a|
  {
    a == [] || (b != [] && (a[0] < b[0] || (a[0] == b[0] && Le(a[1..], b[1..]))))
  }

  lemma {:induction false} LeReflexive(a: string)
    ensures Le(a, a)
    decreases |a|
  {
    if a != [] {
      LeReflexive(a[1..]);
    }
  }

  lemma {:induction false} LeTotal(a: string, b: string)
    ensures Le(a, b) || Le(b, a)
    decreases |a|
  {
    if a != [] && b != [] && a[0] == b[0] {
      LeTotal(a[1..], b[1..]);
    }
  }

  lemma {:induction false} LeAntisymmetric(a: string, b: string)
    requires Le(a, b) && Le(b, a)
    ensures a == b
    decreases |a|
  {
    if a != [] {
      LeAntisymmetric(a[1..], b[1..]);
      assert a == [a[0]] + a[1..] && b == [b[0]] + b[1..];
    }
  }

  lemma {:induction false} LeTransitive(a: string, b: string, c: string)
    requires Le(a, b) && Le(b, c)
    ensures Le(a, c)
    decreases |a|
  {
    if a != [] && b != [] && c != [] && a[0] == b[0] && b[0] == c[0] {
      LeTransitive(a[1..], b[1..], c[1..]);
    }
  }

  lemma LeAntisymmetricAll()
    ensures forall a, b :: Le(a, b) && Le(b, a) ==> a == b
  {
    forall a, b | Le(a, b) && Le(b, a)
      ensures a == b
    {
      LeAntisymmetric(a, b);
    }
  }

  ghost predicate IsLeast(m: string, s: set<string>)
  {
    m in s && forall y :: y in s ==> Le(m, y)
  }

  lemma {:induction false} LeastExists(s: set<string>)
    requires s != {}
    ensures exists m :: IsLeast(m, s)
    decreases |s|
  {
    var x :| x in s;
    if s == {x} {
      LeReflexive(x);
      assert IsLeast(x, s);
    } else {
      LeastExists(s - {x});
      var m :| IsLeast(m, s - {x});
      LeTotal(m, x);
      if Le(m, x) {
        assert IsLeast(m, s);
      } else {
        forall y | y in s
          ensures Le(x, y)
        {
          if y == x {
            LeReflexive(x);
          } else {
            LeTransitive(x, m, y);
          }
        }
        assert IsLeast(x, s);
      }
    }
  }

  /** The smallest string of a nonempty set. */
  function Least(s: set<string>): (m: string)
    requires s != {}
    ensures m in s && forall y :: y in s ==> Le(m, y)
  {
    LeastExists(s);
    LeAntisymmetricAll();
    var m :| m in s && forall y | y in s :: Le(m, y);
    m
  }

  /** `sorted(s)` for a set of strings: its elements, ascending, each once. */
  function Sorted(s: set<string>): (r: seq<string>)
    ensures |r| == |s|
    decreases |s|
  {
    if s == {} then []
    else
      var m := Least(s);
      [m] + Sorted(s - {m})
  }

  /** `Sorted` lists the elements of the set and nothing else. */
  lemma {:induction false} SortedMembers(s: set<string>)
    ensures forall x :: x in s <==> x in Sorted(s)
    decreases |s|
  {
    if s != {} {
      var m := Least(s);
      SortedMembers(s - {m});
      assert Sorted(s) == [m] + Sorted(s - {m});
    }
  }

  /** Strictly ascending: each element once, in order. */
  predicate Ascending(r: seq<string>)
  {
    forall i, j :: 0 <= i < j < |r| ==> Le(r[i], r[j]) && r[i] != r[j]
  }

  /** `Sorted` lists the elements in ascending order, each once. */
  lemma {:induction false} SortedAscending(s: set<string>)
    ensures Ascending(Sorted(s))
    decreases |s|
  {
    if s != {} {
      var m := Least(s);
      SortedAscending(s - {m});
      SortedMembers(s - {m});
      var r, t := Sorted(s), Sorted(s - {m});
      assert r == [m] + t;
      forall i, j | 0 <= i < j < |r|
        ensures Le(r[i], r[j]) && r[i] != r[j]
      {
        assert r[j] == t[j - 1] && r[j] in t && r[j] in s - {m};
        if i > 0 {
          assert r[i] == t[i - 1];
        }
      }
    }
  }

  // ---------------------------------------------------------------------------
  // `s.replace("@", "")`: identifiers are written `@I1@` in the file and
  // stored without the delimiters.
  // ---------------------------------------------------------------------------

  function RemoveAt(s: string): (r: string)
    ensures '@' !in r
    ensures |r| <= |s|
  {
    if s == [] then []
    else (if s[0] == '@' then [] else [s[0]]) + RemoveAt(s[1..])
  }

  lemma {:induction false} RemoveAtKeeps(s: string)
    requires '@' !in s
    ensures RemoveAt(s) == s
  {
    if s != [] {
      RemoveAtKeeps(s[1..]);
      assert s == [s[0]] + s[1..];
    }
  }

  lemma {:induction false} RemoveAtConcat(a: string, b: string)
    ensures RemoveAt(a + b) == RemoveAt(a) + RemoveAt(b)
  {
    if a == [] {
      assert a + b == b;
    } else {
      var h := if a[0] == '@' then [] else [a[0]];
      calc {
        RemoveAt(a + b);
        { assert (a + b)[0] == a[0] && (a + b)[1..] == a[1..] + b; }
        h + RemoveAt(a[1..] + b);
        { RemoveAtConcat(a[1..], b); }
        h + (RemoveAt(a[1..]) + RemoveAt(b));
        (h + RemoveAt(a[1..])) + RemoveAt(b);
        RemoveAt(a) + RemoveAt(b);
      }
    }
  }

  /** Stripping the delimiters twice is the same as stripping them once. */
  lemma {:induction false} RemoveAtIdempotent(s: string)
    ensures RemoveAt(RemoveAt(s)) == RemoveAt(s)
  {
    RemoveAtKeeps(RemoveAt(s));
  }

  /** A cross-reference `@x@` is stored as `x`. */
  lemma {:induction false} RemoveAtXref(x: string)
    requires '@' !in x
    ensures RemoveAt("@" + x + "@") == x
  {
    RemoveAtConcat("@" + x, "@");
    RemoveAtConcat("@", x);
    RemoveAtKeeps(x);
  }

  // ---------------------------------------------------------------------------
  // `s.split(sep)` with an explicit one-character separator.
  // ---------------------------------------------------------------------------

  function Split(s: string, sep: char): (r: seq<string>)
    ensures r != []
    decreases |s|
  {
    if s == [] then [[]]
    else
      var rest := Split(s[1..], sep);
      if s[0] == sep then [[]] + rest
      else [[s[0]] + rest[0]] + rest[1..]
  }

  /** There is one more piece than there are separators, and no piece holds one. */
  lemma {:induction false} SplitPieces(s: string, sep: char)
    ensures |Split(s, sep)| == multiset(s)[sep] + 1
    ensures forall i :: 0 <= i < |Split(s, sep)| ==> sep !in Split(s, sep)[i]
    decreases |s|
  {
    if s != [] {
      SplitPieces(s[1..], sep);
      assert s == [s[0]] + s[1..];
      var rest := Split(s[1..], sep);
      if s[0] != sep {
        assert Split(s, sep)[0] == [s[0]] + rest[0];
        assert forall i :: 1 <= i < |Split(s, sep)| ==> Split(s, sep)[i] == rest[i];
      } else {
        assert forall i :: 1 <= i < |Split(s, sep)| ==> Split(s, sep)[i] == rest[i - 1];
      }
    }
  }

  /** `sep.join(parts)`. */
  function Join(parts: seq<string>, sep: char): string
  {
    if parts == [] then []
    else if |parts| == 1 then parts[0]
    else parts[0] + [sep] + Join(parts[1..], sep)
  }

  /** Splitting and joining again gives back the string. */
  lemma {:induction false} JoinSplit(s: string, sep: char)
    ensures Join(Split(s, sep), sep) == s
    decreases |s|
  {
    if s != [] {
      JoinSplit(s[1..], sep);
      var rest := Split(s[1..], sep);
      var r := Split(s, sep);
      assert s == [s[0]] + s[1..];
      if s[0] == sep {
        assert r == [[]] + rest;
        assert r[0] == [] && r[1..] == rest;
        calc {
          Join(r, sep);
          r[0] + [sep] + Join(r[1..], sep);
          [sep] + Join(rest, sep);
          s;
        }
      } else if |rest| == 1 {
        assert r == [[s[0]] + rest[0]];
        calc {
          Join(r, sep);
          [s[0]] + rest[0];
          [s[0]] + Join(rest, sep);
          s;
        }
      } else {
        assert r == [[s[0]] + rest[0]] + rest[1..];
        assert r[0] == [s[0]] + rest[0] && r[1..] == rest[1..];
        calc {
          Join(r, sep);
          r[0] + [sep] + Join(r[1..], sep);
          [s[0]] + rest[0] + [sep] + Join(rest[1..], sep);
          [s[0]] + (rest[0] + [sep] + Join(rest[1..], sep));
          [s[0]] + Join(rest, sep);
          s;
        }
      }
    }
  }

  /** One unfolding of Split on a string that starts with `c`. */
  lemma SplitCons(c: char, t: string, sep: char)
    ensures Split([c] + t, sep) ==
      if c == sep then [[]] + Split(t, sep) else [[c] + Split(t, sep)[0]] + Split(t, sep)[1..]
  {
    assert ([c] + t)[0] == c && ([c] + t)[1..] == t;
  }

  lemma {:induction false} SplitNoSeparator(s: string, sep: char)
    requires sep !in s
    ensures Split(s, sep) == [s]
    decreases |s|
  {
    if s != [] {
      SplitNoSeparator(s[1..], sep);
      assert s == [s[0]] + s[1..];
      SplitCons(s[0], s[1..], sep);
    }
  }

  /** Splitting a string with exactly one separator yields the text on each side. */
  lemma {:induction false} SplitOneSeparator(a: string, b: string, sep: char)
    requires sep !in a && sep !in b
    ensures Split(a + [sep] + b, sep) == [a, b]
    decreases |a|
  {
    if a == [] {
      assert a + [sep] + b == [sep] + b;
      SplitCons(sep, b, sep);
      SplitNoSeparator(b, sep);
    } else {
      assert a + [sep] + b == [a[0]] + (a[1..] + [sep] + b);
      SplitCons(a[0], a[1..] + [sep] + b, sep);
      SplitOneSeparator(a[1..], b, sep);
      assert [a[0]] + a[1..] == a;
    }
  }

  lemma {:induction false} SplitTwoSeparators(a: string, b: string, c: string, sep: char)
    requires sep !in a && sep !in b && sep !in c
    ensures Split(a + [sep] + b + [sep] + c, sep) == [a, b, c]
    decreases |a|
  {
    if a == [] {
      assert a + [sep] + b + [sep] + c == [sep] + (b + [sep] + c);
      SplitCons(sep, b + [sep] + c, sep);
      SplitOneSeparator(b, c, sep);
    } else {
      assert a + [sep] + b + [sep] + c == [a[0]] + (a[1..] + [sep] + b + [sep] + c);
      SplitCons(a[0], a[1..] + [sep] + b + [sep] + c, sep);
      SplitTwoSeparators(a[1..], b, c, sep);
      assert [a[0]] + a[1..] == a;
    }
  }

  // ---------------------------------------------------------------------------
  // `str(name).split()[-1]` and `.strip("/")`: how a family name is taken
  // from the husband's name.
  // ---------------------------------------------------------------------------

  /** Python's `str.isspace()` for a single character. */
  predicate IsSpace(c: char)
  {
    var n := c as int;
    n == 32 || 9 <= n <= 13 || 28 <= n <= 31 || n == 0x85 || n == 0xA0 || n == 0x1680
    || 0x2000 <= n <= 0x200A || n == 0x2028 || n == 0x2029 || n == 0x202F || n == 0x205F
    || n == 0x3000
  }

  /** The longest suffix of `s` without whitespace. */
  function TrailingWord(s: string): (r: string)
    ensures |r| <= |s| && r == s[|s| - |r|..]
    ensures forall c :: c in r ==> !IsSpace(c)
    ensures |r| < |s| ==> IsSpace(s[|s| - |r| - 1])
  {
    if s == [] || IsSpace(s[|s| - 1]) then []
    else TrailingWord(s[..|s| - 1]) + [s[|s| - 1]]
  }

  /** `s.split()[-1]`; None where `split()` gives no word and the index raises. */
  function LastWord(s: string): (r: Option<string>)
    ensures r.None? <==> forall i :: 0 <= i < |s| ==> IsSpace(s[i])
    ensures r.Some? ==> r.value != [] && forall c :: c in r.value ==> !IsSpace(c)
  {
    if s == [] then None
    else if IsSpace(s[|s| - 1]) then
      var r := LastWord(s[..|s| - 1]);
      assert forall i :: 0 <= i < |s| - 1 ==> s[..|s| - 1][i] == s[i];
      r
    else Some(TrailingWord(s))
  }

  /** One past the last character of `s` that is not whitespace; 0 when
      every character is. */
  function WordEnd(s: string): (j: nat)
    ensures j <= |s|
    ensures j > 0 ==> !IsSpace(s[j - 1])
    ensures forall k :: j <= k < |s| ==> IsSpace(s[k])
    decreases |s|
  {
    if s == [] then 0
    else if IsSpace(s[|s| - 1]) then
      var j := WordEnd(s[..|s| - 1]);
      assert forall k :: j <= k < |s| - 1 ==> IsSpace(s[k]) by {
        forall k | j <= k < |s| - 1 ensures IsSpace(s[k]) {
          assert s[k] == s[..|s| - 1][k];
        }
      }
      j
    else |s|
  }

  /** `split()` finds a word exactly when some character is not whitespace. */
  lemma LastWordFound(s: string)
    ensures LastWord(s).Some? <==> WordEnd(s) > 0
  {
    if WordEnd(s) > 0 {
      assert !IsSpace(s[WordEnd(s) - 1]);
    }
  }

  /** Trailing whitespace changes neither the last word nor where it ends. */
  lemma DropTrailingSpace(s: string)
    requires s != [] && IsSpace(s[|s| - 1])
    ensures LastWord(s) == LastWord(s[..|s| - 1])
    ensures WordEnd(s) == WordEnd(s[..|s| - 1])
  {
  }

  /** The last word is the longest whitespace-free suffix of `s` once its
      trailing whitespace is dropped. */
  lemma {:induction false} LastWordIsTrailingWord(s: string)
    ensures LastWord(s).Some? ==> LastWord(s).value == TrailingWord(s[..WordEnd(s)])
    decreases |s|
  {
    if s != [] && IsSpace(s[|s| - 1]) {
      var s' := s[..|s| - 1];
      LastWordIsTrailingWord(s');
      DropTrailingSpace(s);
      assert s'[..WordEnd(s')] == s[..WordEnd(s')];
    } else if s != [] {
      assert s[..WordEnd(s)] == s;
    }
  }

  /** `s.strip("/")`. */
  function StripSlashes(s: string): (r: string)
    ensures |r| <= |s|
    ensures r == [] || (r[0] != '/' && r[|r| - 1] != '/')
    decreases |s|
  {
    if s != [] && s[0] == '/' then StripSlashes(s[1..])
    else if s != [] && s[|s| - 1] == '/' then StripSlashes(s[..|s| - 1])
    else s
  }

  /** `r` is the part of `s` from position `i` on, with only '/' before it
      and after it. */
  predicate SlashFramed(s: string, r: string, i: int)
  {
    0 <= i && i + |r| <= |s| && r == s[i..i + |r|]
    && (forall k :: 0 <= k < i ==> s[k] == '/')
    && (forall k :: i + |r| <= k < |s| ==> s[k] == '/')
  }

  /** What `strip` removes is a run of '/' at each end and nothing else; with
      the ends of the result not being '/', the runs are the longest ones. */
  lemma {:induction false} StripSlashesSpan(s: string)
    ensures exists i :: SlashFramed(s, StripSlashes(s), i)
    decreases |s|
  {
    var r := StripSlashes(s);
    if s != [] && s[0] == '/' {
      var s' := s[1..];
      StripSlashesSpan(s');
      var i :| SlashFramed(s', r, i);
      assert r == s[i + 1..i + 1 + |r|];
      assert forall k :: 0 <= k < i + 1 ==> s[k] == '/' by {
        forall k | 0 <= k < i + 1 ensures s[k] == '/' {
          if k > 0 { assert s[k] == s'[k - 1]; }
        }
      }
      assert forall k :: i + 1 + |r| <= k < |s| ==> s[k] == '/' by {
        forall k | i + 1 + |r| <= k < |s| ensures s[k] == '/' {
          assert s[k] == s'[k - 1];
        }
      }
      assert SlashFramed(s, r, i + 1);
    } else if s != [] && s[|s| - 1] == '/' {
      var s' := s[..|s| - 1];
      StripSlashesSpan(s');
      var i :| SlashFramed(s', r, i);
      assert r == s[i..i + |r|];
      assert forall k :: i + |r| <= k < |s| ==> s[k] == '/' by {
        forall k | i + |r| <= k < |s| ensures s[k] == '/' {
          if k < |s| - 1 { assert s[k] == s'[k]; }
        }
      }
      assert SlashFramed(s, r, i);
    } else {
      assert r == s[0..|s|];
      assert SlashFramed(s, r, 0);
    }
  }

  // ---------------------------------------------------------------------------
  // Decimal numbers: `int(s)` and `str(n)`.
  // ---------------------------------------------------------------------------

  predicate IsDigit(c: char)
  {
    '0' <= c <= '9'
  }

  predicate AllDigits(s: string)
  {
    forall i :: 0 <= i < |s| ==> IsDigit(s[i])
  }

  function DigitValue(c: char): (v: nat)
    requires IsDigit(c)
    ensures v < 10
  {
    (c as int) - ('0' as int)
  }

  function DigitChar(n: nat): (c: char)
    requires n < 10
    ensures IsDigit(c) && DigitValue(c) == n
  {
    (('0' as int) + n) as char
  }

  /** The value of a nonempty string of ASCII digits. */
  function DigitsValue(s: string): nat
    requires s != [] && AllDigits(s)
  {
    if |s| == 1 then DigitValue(s[0])
    else DigitsValue(s[..|s| - 1]) * 10 + DigitValue(s[|s| - 1])
  }

  /** `str(n)` for a natural number: its shortest decimal spelling. */
  function NatToString(n: nat): (r: string)
    ensures r != [] && AllDigits(r) && DigitsValue(r) == n
    ensures |r| > 1 ==> r[0] != '0'
  {
    if n < 10 then [DigitChar(n)]
    else
      var p := NatToString(n / 10);
      var r := p + [DigitChar(n % 10)];
      assert r[..|r| - 1] == p;
      r
  }

  /** `str(i)` for an integer. */
  function IntToString(i: int): string
  {
    if i < 0 then "-" + NatToString(-i) else NatToString(i)
  }

  /** `int(s)` for an optional sign followed by ASCII digits; None where it
      raises ValueError. */
  function ParseInt(s: string): (r: Option<int>)
    ensures s != [] && AllDigits(s) ==> r == Some(DigitsValue(s))
    ensures r.Some? ==> s != [] && (r.value < 0 ==> s[0] == '-')
    ensures r.Some? && s[0] != '-' && s[0] != '+' ==> AllDigits(s)
  {
    if s == [] then None
    else if s[0] == '-' || s[0] == '+' then
      if |s| > 1 && AllDigits(s[1..]) then
        var v: int := DigitsValue(s[1..]);
        Some(if s[0] == '-' then -v else v)
      else None
    else if AllDigits(s) then Some(DigitsValue(s))
    else None
  }

  /** `int(str(i)) == i`. */
  lemma ParseIntOfIntToString(i: int)
    ensures ParseInt(IntToString(i)) == Some(i)
  {
    if i < 0 {
      var r := NatToString(-i);
      assert ("-" + r)[1..] == r;
    }
  }
}

/**
 * The string operations of Python that the core relies on: `str.split` with a
 * one-character separator, `str.join`, `str.strip` and `in` on two strings
 * (substring containment).
 */
module Text {

  /** Python's `s.split(sep)` for a one-character separator: never empty, `"".split(".") == [""]`. */
  function Split(s: string, sep: char): (r: seq<string>)
    ensures |r| >= 1
    ensures forall i :: 0 <= i < |r| ==> sep !in r[i]
  {
    if s == [] then [""]
    else
      var rest := Split(s[1..], sep);
      if s[0] == sep then [""] + rest
      else [[s[0]] + rest[0]] + rest[1..]
  }

  /** Python's `sep.join(parts)`. */
  function Join(parts: seq<string>, sep: string): string
  {
    if parts == [] then ""
    else if |parts| == 1 then parts[0]
    else parts[0] + sep + Join(parts[1..], sep)
  }

  /** Joining the pieces of a split with the separator gives back the original string. */
  lemma {:induction false} JoinSplit(s: string, sep: char)
    ensures Join(Split(s, sep), [sep]) == s
  {
    if s != [] {
      var rest := Split(s[1..], sep);
      JoinSplit(s[1..], sep);
      if s[0] == sep {
        assert Split(s, sep) == [""] + rest;
        assert ([""] + rest)[1..] == rest;
      } else {
        var r := Split(s, sep);
        assert r == [[s[0]] + rest[0]] + rest[1..];
        if |rest| == 1 {
          assert rest == [rest[0]];
        } else {
          assert r[1..] == rest[1..];
          assert Join(rest, [sep]) == rest[0] + [sep] + Join(rest[1..], [sep]);
        }
        assert s == [s[0]] + s[1..];
      }
    }
  }

  /** Splitting a join recovers the parts, provided none of them contains the separator. */
  lemma {:induction false} SplitJoin(parts: seq<string>, sep: char)
    requires |parts| >= 1
    requires forall i :: 0 <= i < |parts| ==> sep !in parts[i]
    ensures Split(Join(parts, [sep]), sep) == parts
  {
    if |parts| == 1 {
      SplitNoSeparator(parts[0], sep);
    } else {
      SplitJoin(parts[1..], sep);
      SplitPrefix(parts[0], Join(parts[1..], [sep]), sep);
      assert parts == [parts[0]] + parts[1..];
    }
  }

  /** A string without the separator splits into itself alone. */
  lemma {:induction false} SplitNoSeparator(s: string, sep: char)
    requires sep !in s
    ensures Split(s, sep) == [s]
  {
    if s != [] {
      SplitNoSeparator(s[1..], sep);
      assert s == [s[0]] + s[1..];
    }
  }

  /** A separator-free prefix followed by the separator is split off as the first piece. */
  lemma {:induction false} SplitPrefix(a: string, b: string, sep: char)
    requires sep !in a
    ensures Split(a + [sep] + b, sep) == [a] + Split(b, sep)
  {
    if a == [] {
      assert a + [sep] + b == [sep] + b;
      assert ([sep] + b)[1..] == b;
    } else {
      var s := a + [sep] + b;
      assert s[0] == a[0];
      assert s[1..] == a[1..] + [sep] + b;
      SplitPrefix(a[1..], b, sep);
      assert a == [a[0]] + a[1..];
    }
  }

  /** Python's `s.rstrip(c)` for one character: drops every trailing `c` and nothing else. */
  function RStrip(s: string, c: char): (r: string)
    ensures |r| <= |s| && r == s[..|r|]
    ensures r == [] || r[|r| - 1] != c
    ensures forall i :: |r| <= i < |s| ==> s[i] == c
  {
    if s != [] && s[|s| - 1] == c then RStrip(s[..|s| - 1], c) else s
  }

  /** Joining two non-empty lists one after the other puts one separator between their joins. */
  lemma {:induction false} JoinConcat(a: seq<string>, b: seq<string>, sep: string)
    requires |a| >= 1 && |b| >= 1
    ensures Join(a + b, sep) == Join(a, sep) + sep + Join(b, sep)
  {
    assert (a + b)[0] == a[0] && (a + b)[1..] == a[1..] + b;
    if |a| > 1 {
      JoinConcat(a[1..], b, sep);
    }
  }

  /** The join of a non-empty front, an optional middle and a last part. */
  lemma JoinAround(front: seq<string>, middle: seq<string>, last: string, sep: string)
    requires |front| >= 1
    ensures middle == [] ==> Join(front + middle + [last], sep) == Join(front, sep) + sep + last
    ensures middle != [] ==>
      Join(front + middle + [last], sep) == Join(front, sep) + sep + Join(middle, sep) + sep + last
  {
    var tail := middle + [last];
    assert front + middle + [last] == front + tail;
    JoinConcat(front, tail, sep);
    if middle == [] {
      assert tail == [last];
    } else {
      JoinConcat(middle, [last], sep);
      var f, m := Join(front, sep), Join(middle, sep);
      assert f + sep + (m + sep + last) == f + sep + m + sep + last;
    }
  }

  /** `JoinAround` behind a fixed prefix. */
  lemma PrefixedJoinAround(prefix: string, front: seq<string>, middle: seq<string>, last: string, sep: string)
    requires |front| >= 1
    ensures middle == [] ==> prefix + Join(front + middle + [last], sep) == prefix + Join(front, sep) + sep + last
    ensures middle != [] ==>
      prefix + Join(front + middle + [last], sep) == prefix + Join(front, sep) + sep + Join(middle, sep) + sep + last
  {
    JoinAround(front, middle, last, sep);
    var f, m := Join(front, sep), Join(middle, sep);
    if middle == [] {
      assert prefix + (f + sep + last) == prefix + f + sep + last;
    } else {
      assert prefix + (f + sep + m + sep + last) == prefix + f + sep + m + sep + last;
    }
  }

  /** Each part followed by `terminator`, all concatenated. */
  function Terminated(parts: seq<string>, terminator: string): string
  {
    if parts == [] then "" else parts[0] + terminator + Terminated(parts[1..], terminator)
  }

  /** Joining and then appending the separator once more terminates every part; it is also a join with an empty last part. */
  lemma {:induction false} JoinThenSeparator(parts: seq<string>, sep: string)
    requires |parts| >= 1
    ensures Join(parts, sep) + sep == Terminated(parts, sep)
    ensures Join(parts + [""], sep) == Join(parts, sep) + sep
  {
    if |parts| == 1 {
      assert parts + [""] == [parts[0], ""];
      assert [parts[0], ""][1..] == [""];
    } else {
      JoinThenSeparator(parts[1..], sep);
      assert (parts + [""])[1..] == parts[1..] + [""];
    }
  }

  /** A key found at a position is contained. */
  lemma OccursContains(s: string, key: string, i: int)
    requires OccursAt(s, key, i)
    ensures Contains(s, key)
  {
    ContainsAt(s, key);
  }

  /**
   * The six ASCII whitespace characters: space, tab, LF, VT, FF and CR. `str.strip()`
   * also removes the separators U+001C to U+001F and non-ASCII whitespace, which this
   * predicate leaves out.
   */
  predicate IsSpace(c: char)
  {
    c == ' ' || c == '\t' || c == '\n' || c == '\r' || c == '\U{000B}' || c == '\U{000C}'
  }

  function StripLeft(s: string): (r: string)
    ensures |r| <= |s| && r == s[|s| - |r|..]
    ensures r == [] || !IsSpace(r[0])
  {
    if s != [] && IsSpace(s[0]) then StripLeft(s[1..]) else s
  }

  function StripRight(s: string): (r: string)
    ensures |r| <= |s| && r == s[..|r|]
    ensures r == [] || !IsSpace(r[|r| - 1])
  {
    if s != [] && IsSpace(s[|s| - 1]) then StripRight(s[..|s| - 1]) else s
  }

  /** Python's `s.strip()` over ASCII whitespace: no whitespace is left at either end. */
  function Strip(s: string): (r: string)
    ensures r == [] || (!IsSpace(r[0]) && !IsSpace(r[|r| - 1]))
  {
    var l := StripLeft(s);
    var r := StripRight(l);
    if r == [] then
      r
    else
      assert !IsSpace(r[0]) && r[0] == l[0];
      r
  }

  /** The stripped string is the piece of `s` left after the leading whitespace. */
  lemma StripInfix(s: string)
    ensures OccursAt(s, Strip(s), |s| - |StripLeft(s)|)
  {
    var l := StripLeft(s);
    var r := StripRight(l);
    var k := |s| - |l|;
    assert Strip(s) == r;
    assert l == s[k..] && r == l[..|r|];
    PrefixOfSuffix(s, k, |r|);
  }

  lemma PrefixOfSuffix(s: string, k: int, m: int)
    requires 0 <= k <= |s| && 0 <= m <= |s| - k
    ensures s[k..][..m] == s[k..k + m]
  {
    var a := s[k..][..m];
    var b := s[k..k + m];
    forall j | 0 <= j < m
      ensures a[j] == b[j]
    {
    }
    assert a == b;
  }

  /** Stripping yields the empty string exactly when `s` is all whitespace. */
  lemma StripEmpty(s: string)
    ensures Strip(s) == [] <==> forall i :: 0 <= i < |s| ==> IsSpace(s[i])
  {
    var l := StripLeft(s);
    StripLeftSkipsSpace(s);
    if l != [] {
      assert l[0] == s[|s| - |l|];
      StripRightKeeps(l);
    }
  }

  /** `StripRight` keeps a string that starts with a non-whitespace character non-empty. */
  lemma {:induction false} StripRightKeeps(s: string)
    requires s != [] && !IsSpace(s[0])
    ensures StripRight(s) != []
  {
    if IsSpace(s[|s| - 1]) {
      StripRightKeeps(s[..|s| - 1]);
    }
  }

  /** Everything `StripLeft` drops is whitespace. */
  lemma {:induction false} StripLeftSkipsSpace(s: string)
    ensures forall i :: 0 <= i < |s| - |StripLeft(s)| ==> IsSpace(s[i])
  {
    if s != [] && IsSpace(s[0]) {
      StripLeftSkipsSpace(s[1..]);
      assert forall i :: 1 <= i < |s| ==> s[i] == s[1..][i - 1];
    }
  }

  /** `key` occurs in `s` starting at position `i`. */
  predicate OccursAt(s: string, key: string, i: int)
  {
    0 <= i <= |s| - |key| && s[i..i + |key|] == key
  }

  /** A string with no whitespace at either end is its own strip. */
  lemma StripStripped(s: string)
    requires s == [] || (!IsSpace(s[0]) && !IsSpace(s[|s| - 1]))
    ensures Strip(s) == s
  {
    assert StripLeft(s) == s;
  }

  /** A character absent from a string is absent from every piece found in it. */
  lemma OccursAtWithout(s: string, key: string, i: int, c: char)
    requires OccursAt(s, key, i) && c !in s
    ensures c !in key
  {
  }

  /** Python's `key in s` for two strings: `key` occurs as a contiguous substring of `s`. */
  predicate Contains(s: string, key: string)
    decreases |s|
  {
    key <= s || (s != [] && Contains(s[1..], key))
  }

  /** `Contains` agrees with the positional definition of a substring. */
  lemma {:induction false} ContainsAt(s: string, key: string)
    ensures Contains(s, key) <==> exists i :: 0 <= i && OccursAt(s, key, i)
  {
    if key <= s {
      assert OccursAt(s, key, 0);
    } else if s == [] {
    } else {
      ContainsAt(s[1..], key);
      if Contains(s[1..], key) {
        var i :| 0 <= i && OccursAt(s[1..], key, i);
        SliceShift(s, i + 1, |key|);
        assert OccursAt(s, key, i + 1);
      } else {
        forall i | 0 <= i
          ensures !OccursAt(s, key, i)
        {
          if i == 0 {
            assert !(key <= s);
          } else if i <= |s| - |key| {
            SliceShift(s, i, |key|);
            assert !OccursAt(s[1..], key, i - 1);
          }
        }
      }
    }
  }

  lemma SliceShift(s: string, i: int, n: int)
    requires 1 <= i && 0 <= n && i + n <= |s|
    ensures s[i..i + n] == s[1..][i - 1..i - 1 + n]
  {
    var a := s[i..i + n];
    var b := s[1..][i - 1..i - 1 + n];
    forall k | 0 <= k < n
      ensures a[k] == b[k]
    {
    }
    assert a == b;
  }

  /** Every character of a contained key is a character of the string. */
  lemma {:induction false} ContainsChars(s: string, key: string, c: char)
    requires Contains(s, key) && c in key
    ensures c in s
  {
    if key <= s {
      var j :| 0 <= j < |key| && key[j] == c;
      assert s[j] == c;
    } else {
      ContainsChars(s[1..], key, c);
      assert s[1..] <= s[1..];
      var j :| 0 <= j < |s[1..]| && s[1..][j] == c;
      assert s[j + 1] == c;
    }
  }
}

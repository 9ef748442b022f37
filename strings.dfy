/** Text operations the LHA reader relies on, stated as Python's `str` methods behave. */
module Strings {

  /** Python's `str.split(sep, maxsplit)`: cut `s` at the leftmost
      non-overlapping occurrences of `sep`, at most `maxsplit` times
      (without limit when `maxsplit` is negative). */
  function Split(s: string, sep: string, maxsplit: int := -1): (parts: seq<string>)
    requires sep != []
    ensures |parts| >= 1
    decreases |s|
  {
    if maxsplit == 0 || |s| < |sep| then [s]
    else if s[..|sep|] == sep then
      [""] + Split(s[|sep|..], sep, if maxsplit < 0 then maxsplit else maxsplit - 1)
    else
      var rest := Split(s[1..], sep, maxsplit);
      [[s[0]] + rest[0]] + rest[1..]
  }

  /** A text without the separator character is one piece. */
  lemma {:induction false} SplitWithoutSeparator(s: string, c: char)
    requires forall k :: 0 <= k < |s| ==> s[k] != c
    ensures Split(s, [c]) == [s]
    decreases |s|
  {
    if |s| >= 1 {
      SplitWithoutSeparator(s[1..], c);
      assert s == [s[0]] + s[1..];
    }
  }

  /** Splitting on a character cuts at its first occurrence first. */
  lemma {:induction false} SplitAtFirst(a: string, c: char, b: string)
    requires forall k :: 0 <= k < |a| ==> a[k] != c
    ensures Split(a + [c] + b, [c]) == [a] + Split(b, [c])
  {
    if a != [] {
      var s := a + [c] + b;
      SplitAtFirst(a[1..], c, b);
      assert s[1..] == a[1..] + [c] + b;
      assert s[..1] != [c] by { assert s[0] == a[0]; }
      assert [s[0]] + a[1..] == a;
    } else {
      assert a + [c] + b == [c] + b;
    }
  }

  /** Python's `sep.join(parts)`. */
  function Join(parts: seq<string>, sep: string): string
  {
    if parts == [] then ""
    else if |parts| == 1 then parts[0]
    else parts[0] + sep + Join(parts[1..], sep)
  }

  /** Splitting loses nothing: joining the pieces back gives the text. */
  lemma {:induction false} JoinSplit(s: string, sep: string, maxsplit: int)
    requires sep != []
    ensures Join(Split(s, sep, maxsplit), sep) == s
    decreases |s|
  {
    if maxsplit == 0 || |s| < |sep| {
    } else if s[..|sep|] == sep {
      var k := if maxsplit < 0 then maxsplit else maxsplit - 1;
      JoinSplit(s[|sep|..], sep, k);
      JoinSplitAtSep(s, sep, maxsplit);
    } else {
      JoinSplit(s[1..], sep, maxsplit);
      JoinSplitAtChar(s, sep, maxsplit);
    }
  }

  /** The step of `JoinSplit` where the text starts with the separator. */
  lemma JoinSplitAtSep(s: string, sep: string, maxsplit: int)
    requires sep != [] && maxsplit != 0 && |s| >= |sep| && s[..|sep|] == sep
    requires Join(Split(s[|sep|..], sep, if maxsplit < 0 then maxsplit else maxsplit - 1), sep) == s[|sep|..]
    ensures Join(Split(s, sep, maxsplit), sep) == s
  {
    var rest := Split(s[|sep|..], sep, if maxsplit < 0 then maxsplit else maxsplit - 1);
    assert Split(s, sep, maxsplit) == [""] + rest;
    assert ([""] + rest)[1..] == rest;
    assert "" + sep == sep;
    assert s == sep + s[|sep|..];
  }

  /** The step of `JoinSplit` where the text starts with a character kept in the first piece. */
  lemma JoinSplitAtChar(s: string, sep: string, maxsplit: int)
    requires sep != [] && maxsplit != 0 && |s| >= |sep| && s[..|sep|] != sep
    requires Join(Split(s[1..], sep, maxsplit), sep) == s[1..]
    ensures Join(Split(s, sep, maxsplit), sep) == s
  {
    var rest := Split(s[1..], sep, maxsplit);
    assert Split(s, sep, maxsplit) == [[s[0]] + rest[0]] + rest[1..];
    JoinPrepend(s[0], rest, sep);
    assert s == [s[0]] + s[1..];
  }

  /** Putting a character in front of the first piece puts it in front of the joined text. */
  lemma JoinPrepend(c: char, parts: seq<string>, sep: string)
    requires |parts| >= 1
    ensures Join([[c] + parts[0]] + parts[1..], sep) == [c] + Join(parts, sep)
  {
    var q := [[c] + parts[0]] + parts[1..];
    if |parts| > 1 {
      assert q[1..] == parts[1..];
    }
  }

  function Min(a: int, b: int): int { if a <= b then a else b }

  /** A limit only stops the cutting early: with `maxsplit` = k there are
      min(k, n) + 1 pieces, where n is the number of cuts made without a limit. */
  lemma {:induction false} SplitLimitCount(s: string, sep: string, k: nat)
    requires sep != []
    ensures |Split(s, sep, k)| == Min(k, |Split(s, sep)| - 1) + 1
    decreases |s|
  {
    if k == 0 || |s| < |sep| {
    } else if s[..|sep|] == sep {
      SplitLimitCount(s[|sep|..], sep, k - 1);
    } else {
      SplitLimitCount(s[1..], sep, k);
    }
  }

  /** Every piece of a limited split on a character but the last stops before
      an occurrence of that character, so it holds none. */
  lemma {:induction false} SplitPieceNoSeparator(s: string, c: char, k: int, i: nat)
    requires i < |Split(s, [c], k)| - 1
    ensures c !in Split(s, [c], k)[i]
    decreases |s|
  {
    if k == 0 || |s| < 1 {
    } else if s[..1] == [c] {
      if i > 0 {
        SplitPieceNoSeparator(s[1..], c, if k < 0 then k else k - 1, i - 1);
      }
    } else {
      var rest := Split(s[1..], [c], k);
      assert Split(s, [c], k) == [[s[0]] + rest[0]] + rest[1..];
      SplitPieceNoSeparator(s[1..], c, k, i);
    }
  }

  /** Number of occurrences of `c` in `s`. */
  function CountChar(s: string, c: char): nat
  {
    if s == [] then 0 else (if s[0] == c then 1 else 0) + CountChar(s[1..], c)
  }

  /** Splitting on one character cuts at each of its occurrences. */
  lemma {:induction false} SplitCharCount(s: string, c: char)
    ensures |Split(s, [c])| == CountChar(s, c) + 1
    decreases |s|
  {
    if |s| >= 1 {
      SplitCharCount(s[1..], c);
    }
  }

  /** With a limit of k cuts on a character, there are k + 1 pieces exactly
      when the character occurs at least k times. */
  lemma SplitCharLimit(s: string, c: char, k: nat)
    ensures |Split(s, [c], k)| == k + 1 <==> CountChar(s, c) >= k
  {
    SplitLimitCount(s, [c], k);
    SplitCharCount(s, c);
  }

  /** Python's `str.isspace` for one character: the ASCII controls 9-13 and
      28-31, the space, and the Unicode separators. */
  predicate IsSpace(c: char)
  {
    ('\t' <= c <= '\r') || ('\U{1c}' <= c <= ' ') || c == '\U{85}' || c == '\U{a0}'
    || c == '\U{1680}' || ('\U{2000}' <= c <= '\U{200a}') || c == '\U{2028}' || c == '\U{2029}'
    || c == '\U{202f}' || c == '\U{205f}' || c == '\U{3000}'
  }

  /** Python's `str.lstrip()`. */
  function StripStart(s: string): (r: string)
    ensures |r| <= |s| && r == s[|s| - |r|..]
    ensures forall i {:trigger IsSpace(s[i])} :: 0 <= i < |s| - |r| ==> IsSpace(s[i])
    ensures r == [] || !IsSpace(r[0])
  {
    if s != [] && IsSpace(s[0]) then StripStart(s[1..]) else s
  }

  /** Python's `str.rstrip()`. */
  function StripEnd(s: string): (r: string)
    ensures |r| <= |s| && r == s[..|r|]
    ensures forall i {:trigger IsSpace(s[i])} :: |r| <= i < |s| ==> IsSpace(s[i])
    ensures r == [] || !IsSpace(r[|r| - 1])
  {
    if s != [] && IsSpace(s[|s| - 1]) then StripEnd(s[..|s| - 1]) else s
  }

  /** Python's `str.strip()`. */
  function Strip(s: string): string
  {
    StripEnd(StripStart(s))
  }

  /** `s.strip()` is empty exactly when every character of `s` is whitespace;
      otherwise it is a slice of `s` starting and ending on non-whitespace. */
  lemma StripProperties(s: string)
    ensures Strip(s) == "" <==> forall i :: 0 <= i < |s| ==> IsSpace(s[i])
    ensures Strip(s) != "" ==> !IsSpace(Strip(s)[0]) && !IsSpace(Strip(s)[|Strip(s)| - 1])
    ensures exists i, j :: 0 <= i <= j <= |s| && Strip(s) == s[i..j]
  {
    var k := StripSlice(s);
    StripEmpty(s, k);
  }

  /** Where `s.strip()` starts: it is the slice of `s` from there, and when
      it is not empty its first character is `s[k]`, not whitespace. */
  lemma StripSlice(s: string) returns (k: nat)
    ensures k <= |s| && k + |Strip(s)| <= |s| && Strip(s) == s[k..k + |Strip(s)|]
    ensures forall i :: 0 <= i < k ==> IsSpace(s[i])
    ensures Strip(s) == "" <==> k == |s|
    ensures Strip(s) != "" ==> !IsSpace(Strip(s)[0]) && !IsSpace(Strip(s)[|Strip(s)| - 1])
  {
    var a := StripStart(s);
    var b := StripEnd(a);
    k := |s| - |a|;
    assert a == s[k..] && b == a[..|b|];
    if a != [] {
      assert !IsSpace(a[0]);
      assert b != [];
      assert b[0] == a[0];
    }
  }

  lemma StripEmpty(s: string, k: nat)
    requires k <= |s| && k + |Strip(s)| <= |s| && Strip(s) == s[k..k + |Strip(s)|]
    requires forall i :: 0 <= i < k ==> IsSpace(s[i])
    requires Strip(s) == "" <==> k == |s|
    requires Strip(s) != "" ==> !IsSpace(Strip(s)[0])
    ensures Strip(s) == "" <==> forall i :: 0 <= i < |s| ==> IsSpace(s[i])
  {
    if Strip(s) != "" {
      assert Strip(s)[0] == s[k];
    }
  }

  /** `t` occurs in `s` (Python's `t in s` on strings). */
  predicate Contains(s: string, t: string)
  {
    exists i | 0 <= i <= |s| - |t| :: OccursAt(s, t, i)
  }

  /** `t` occurs in `s` at position `i`. */
  predicate OccursAt(s: string, t: string, i: int)
  {
    0 <= i <= |s| - |t| && s[i..i + |t|] == t
  }

  /** A text holds what either of its parts holds. */
  lemma ContainsInConcat(a: string, t: string, b: string, u: string)
    requires Contains(t, u)
    ensures Contains(a + t + b, u)
  {
    var i :| 0 <= i <= |t| - |u| && OccursAt(t, u, i);
    assert (a + t + b)[|a| + i..|a| + i + |u|] == u;
    assert OccursAt(a + t + b, u, |a| + i);
  }

  /** A text holds what its end holds. */
  lemma ContainsAfter(a: string, t: string, u: string)
    requires Contains(t, u)
    ensures Contains(a + t, u)
  {
    var i :| 0 <= i <= |t| - |u| && OccursAt(t, u, i);
    assert (a + t)[|a| + i..|a| + i + |u|] == t[i..i + |u|];
    assert OccursAt(a + t, u, |a| + i);
  }

  /** A text holds what its beginning holds. */
  lemma ContainsBefore(t: string, b: string, u: string)
    requires Contains(t, u)
    ensures Contains(t + b, u)
  {
    var i :| 0 <= i <= |t| - |u| && OccursAt(t, u, i);
    assert (t + b)[i..i + |u|] == t[i..i + |u|];
    assert OccursAt(t + b, u, i);
  }

  /** `str(10000)` holds "0000". */
  lemma TenThousandHoldsFourZeros()
    ensures NatToString(10000) == "10000" && Contains(NatToString(10000), "0000")
  {
    assert NatToString(1) == "1";
    assert NatToString(10) == "10";
    assert NatToString(100) == "100";
    assert NatToString(1000) == "1000";
    assert "10000"[1..5] == "0000";
    assert OccursAt("10000", "0000", 1);
  }

  /** The whitespace-separated words of `s`, where `seps` are the separators:
      the maximal runs of other characters, in order. */
  function Fields(s: string, seps: set<char>): (r: seq<string>)
    ensures forall i :: 0 <= i < |r| ==> r[i] != [] && forall k :: 0 <= k < |r[i]| ==> r[i][k] !in seps
    decreases |s|
  {
    if s == [] then []
    else if s[0] in seps then Fields(s[1..], seps)
    else
      var n := RunLength(s, seps);
      [s[..n]] + Fields(s[n..], seps)
  }

  /** Length of the run of non-separators that starts `s`. */
  function RunLength(s: string, seps: set<char>): (n: nat)
    ensures n <= |s|
    ensures forall k :: 0 <= k < n ==> s[k] !in seps
    ensures n < |s| ==> s[n] in seps
  {
    if s == [] || s[0] in seps then 0 else 1 + RunLength(s[1..], seps)
  }

  /** Only which characters of `s` separate matters to its words. */
  lemma {:induction false} FieldsSameSeparators(s: string, a: set<char>, b: set<char>)
    requires forall k :: 0 <= k < |s| ==> (s[k] in a <==> s[k] in b)
    ensures Fields(s, a) == Fields(s, b)
    decreases |s|
  {
    if s != [] {
      RunLengthSameSeparators(s, a, b);
      if s[0] in a {
        FieldsSameSeparators(s[1..], a, b);
      } else {
        var n := RunLength(s, a);
        FieldsSameSeparators(s[n..], a, b);
      }
    }
  }

  lemma {:induction false} RunLengthSameSeparators(s: string, a: set<char>, b: set<char>)
    requires forall k :: 0 <= k < |s| ==> (s[k] in a <==> s[k] in b)
    ensures RunLength(s, a) == RunLength(s, b)
  {
    if s != [] && s[0] !in a {
      RunLengthSameSeparators(s[1..], a, b);
    }
  }

  function Concat(parts: seq<string>): string
  {
    if parts == [] then "" else parts[0] + Concat(parts[1..])
  }

  function Remove(s: string, seps: set<char>): string
  {
    if s == [] then "" else (if s[0] in seps then "" else [s[0]]) + Remove(s[1..], seps)
  }

  lemma {:induction false} ConcatAppend(a: seq<string>, b: seq<string>)
    ensures Concat(a + b) == Concat(a) + Concat(b)
  {
    if a != [] {
      assert (a + b)[1..] == a[1..] + b;
      assert (a + b)[0] == a[0];
      ConcatAppend(a[1..], b);
    } else {
      assert a + b == b;
    }
  }

  lemma {:induction false} RemoveNone(s: string, seps: set<char>)
    requires forall k :: 0 <= k < |s| ==> s[k] !in seps
    ensures Remove(s, seps) == s
  {
    if s != [] {
      RemoveNone(s[1..], seps);
    }
  }

  lemma {:induction false} RemoveAppend(a: string, b: string, seps: set<char>)
    ensures Remove(a + b, seps) == Remove(a, seps) + Remove(b, seps)
  {
    if a != [] {
      assert (a + b)[1..] == a[1..] + b;
      assert (a + b)[0] == a[0];
      RemoveAppend(a[1..], b, seps);
    } else {
      assert a + b == b;
    }
  }

  /** Removing one set of characters and then another removes both. */
  lemma {:induction false} RemoveTwice(s: string, a: set<char>, b: set<char>)
    ensures Remove(Remove(s, a), b) == Remove(s, a + b)
  {
    if s != [] {
      RemoveTwice(s[1..], a, b);
      RemoveAppend(if s[0] in a then "" else [s[0]], Remove(s[1..], a), b);
    }
  }

  /** The words hold every non-separator character of `s`, in order, and nothing else. */
  lemma {:induction false} FieldsKeepText(s: string, seps: set<char>)
    ensures Concat(Fields(s, seps)) == Remove(s, seps)
    decreases |s|
  {
    if s == [] {
    } else if s[0] in seps {
      FieldsKeepText(s[1..], seps);
    } else {
      var n := RunLength(s, seps);
      FieldsKeepText(s[n..], seps);
      RemoveNone(s[..n], seps);
      assert s == s[..n] + s[n..];
      RemoveAppend(s[..n], s[n..], seps);
    }
  }

  /** The non-empty parts, in order. */
  function NonEmpty(parts: seq<string>): (r: seq<string>)
    ensures forall i :: 0 <= i < |r| ==> r[i] != [] && r[i] in parts
  {
    if parts == [] then [] else (if parts[0] == [] then [] else [parts[0]]) + NonEmpty(parts[1..])
  }

  /** With a single separator character, the words of `s` are the non-empty
      pieces of `s.split(c)`: exactly where one word ends and the next begins. */
  lemma {:induction false} FieldsAreSplitPieces(s: string, c: char)
    ensures Fields(s, {c}) == NonEmpty(Split(s, [c]))
    decreases |s|
  {
    if s == [] {
    } else if s[0] == c {
      var rest := Split(s[1..], [c]);
      assert s[..1] == [c];
      assert Split(s, [c]) == [""] + rest;
      assert ([""] + rest)[1..] == rest;
      FieldsAreSplitPieces(s[1..], c);
    } else {
      var n := RunLength(s, {c});
      if n == |s| {
        SplitWithoutSeparator(s, c);
        assert s[..n] == s && s[n..] == [];
      } else {
        var rest := Split(s[n + 1..], [c]);
        assert s == s[..n] + [c] + s[n + 1..];
        SplitAtFirst(s[..n], c, s[n + 1..]);
        assert ([s[..n]] + rest)[1..] == rest;
        assert s[n..][1..] == s[n + 1..];
        FieldsAreSplitPieces(s[n + 1..], c);
      }
    }
  }

  function Digit(d: nat): (c: char)
    requires d < 10
    ensures '0' <= c <= '9' && c as int - '0' as int == d
  {
    ('0' as int + d) as char
  }

  /** Python's `str(n)` for a natural number. */
  function NatToString(n: nat): (r: string)
    ensures |r| >= 1
    ensures forall i :: 0 <= i < |r| ==> '0' <= r[i] <= '9'
  {
    if n < 10 then [Digit(n)] else NatToString(n / 10) + [Digit(n % 10)]
  }

  /** Python's `int(s)` for a string of decimal digits. */
  function DigitsValue(s: string): nat
    requires forall i :: 0 <= i < |s| ==> '0' <= s[i] <= '9'
  {
    if s == [] then 0 else 10 * DigitsValue(s[..|s| - 1]) + (s[|s| - 1] as int - '0' as int)
  }

  /** The decimal rendering of a number reads back as that number. */
  lemma {:induction false} NatToStringRoundTrip(n: nat)
    ensures DigitsValue(NatToString(n)) == n
  {
    if n >= 10 {
      var r := NatToString(n);
      var last := Digit(n % 10);
      assert r == NatToString(n / 10) + [last];
      assert r[..|r| - 1] == NatToString(n / 10);
      NatToStringRoundTrip(n / 10);
      assert DigitsValue(r) == 10 * (n / 10) + n % 10;
    }
  }

  /** Python's `str.lower()` restricted to ASCII letters; other characters are kept. */
  function Lower(s: string): (r: string)
    ensures |r| == |s|
  {
    if s == [] then ""
    else [if 'A' <= s[0] <= 'Z' then (s[0] as int + 32) as char else s[0]] + Lower(s[1..])
  }

  /** Python's ordering of strings: lexicographic by code point. */
  predicate LexLe(a: string, b: string)
  {
    a == [] || (b != [] && (a[0] < b[0] || (a[0] == b[0] && LexLe(a[1..], b[1..]))))
  }

  lemma {:induction false} LexLeTotal(a: string, b: string)
    ensures LexLe(a, b) || LexLe(b, a)
  {
    if a != [] && b != [] && a[0] == b[0] {
      LexLeTotal(a[1..], b[1..]);
    }
  }

  lemma {:induction false} LexLeTransitive(a: string, b: string, c: string)
    requires LexLe(a, b) && LexLe(b, c)
    ensures LexLe(a, c)
  {
    if a != [] && b != [] && c != [] && a[0] == b[0] == c[0] {
      LexLeTransitive(a[1..], b[1..], c[1..]);
    }
  }

  predicate Sorted(s: seq<string>)
  {
    forall i, j :: 0 <= i < j < |s| ==> LexLe(s[i], s[j])
  }

  function Insert(x: string, s: seq<string>): (r: seq<string>)
    requires Sorted(s)
    ensures Sorted(r)
    ensures multiset(r) == multiset(s) + multiset{x}
  {
    if s == [] then [x]
    else if LexLe(x, s[0]) then
      BelowHead(x, s);
      [x] + s
    else
      var t := Insert(x, s[1..]);
      LexLeTotal(x, s[0]);
      assert s == [s[0]] + s[1..];
      HeadBelowInsert(x, s, t);
      [s[0]] + t
  }

  /** A name no greater than the head of a sorted list is no greater than any of it. */
  lemma BelowHead(x: string, s: seq<string>)
    requires Sorted(s) && s != [] && LexLe(x, s[0])
    ensures forall j :: 0 <= j < |s| ==> LexLe(x, s[j])
  {
    forall j | 0 <= j < |s| ensures LexLe(x, s[j]) {
      if j > 0 { LexLeTransitive(x, s[0], s[j]); }
    }
  }

  /** The head of a sorted list is no greater than anything inserted into its tail
      after it. */
  lemma HeadBelowInsert(x: string, s: seq<string>, t: seq<string>)
    requires Sorted(s) && s != [] && LexLe(s[0], x)
    requires multiset(t) == multiset(s[1..]) + multiset{x}
    ensures forall j :: 0 <= j < |t| ==> LexLe(s[0], t[j])
  {
    forall j | 0 <= j < |t| ensures LexLe(s[0], t[j]) {
      assert t[j] in multiset(t);
      assert t[j] == x || t[j] in multiset(s[1..]);
      if t[j] != x {
        var k :| 0 <= k < |s[1..]| && s[1..][k] == t[j];
        assert s[k + 1] == t[j];
      }
    }
  }

  /** Python's `sorted` on a list of names: the same names, in ascending order. */
  function SortNames(s: seq<string>): (r: seq<string>)
    ensures Sorted(r)
    ensures multiset(r) == multiset(s)
  {
    if s == [] then []
    else
      assert s == [s[0]] + s[1..];
      Insert(s[0], SortNames(s[1..]))
  }
}

/** The Python string and path primitives the keyring code relies on:
    `str.strip()`, `str.split(sep)`, `sep.join(parts)` and two-argument
    `os.path.join`, with the properties the rest of the model uses. */
module PyStr {

  /** Python 3's `str.isspace()` for one character: the ASCII controls TAB to CR,
      the separators 0x1C to 0x1F, SPACE, NEL, NBSP and the Unicode spaces. */
  predicate IsSpace(c: char) {
    || ('\U{9}' <= c <= '\U{d}')
    || ('\U{1c}' <= c <= '\U{20}')
    || c == '\U{85}' || c == '\U{a0}' || c == '\U{1680}'
    || ('\U{2000}' <= c <= '\U{200a}')
    || c == '\U{2028}' || c == '\U{2029}' || c == '\U{202f}' || c == '\U{205f}'
    || c == '\U{3000}'
  }

  /** Every character is whitespace. */
  predicate AllSpace(s: string)
    decreases |s|
  {
    |s| == 0 || (IsSpace(s[0]) && AllSpace(s[1..]))
  }

  lemma {:induction false} AllSpaceConcat(x: string, y: string)
    requires AllSpace(x) && AllSpace(y)
    ensures AllSpace(x + y)
    decreases |x|
  {
    if |x| == 0 {
      assert x + y == y;
    } else {
      AllSpaceConcat(x[1..], y);
      assert (x + y)[1..] == x[1..] + y;
    }
  }

  /** No whitespace at either end: the shape `strip()` leaves behind. */
  predicate IsStripped(s: string) {
    |s| == 0 || (!IsSpace(s[0]) && !IsSpace(s[|s| - 1]))
  }

  /** `r` is the slice of `s` starting at `i`, and everything cut off on
      either side of it is whitespace. */
  predicate Trims(s: string, i: int, r: string) {
    && 0 <= i && i + |r| <= |s|
    && r == s[i..i + |r|]
    && AllSpace(s[..i])
    && AllSpace(s[i + |r|..])
  }

  /** `str.strip()`: drops one outer whitespace character at a time until
      neither end is whitespace; `StripTrims` shows that only whitespace goes. */
  function Strip(s: string): (r: string)
    ensures IsStripped(r)
    ensures |r| <= |s|
    decreases |s|
  {
    if |s| > 0 && IsSpace(s[0]) then Strip(s[1..])
    else if |s| > 0 && IsSpace(s[|s| - 1]) then Strip(s[..|s| - 1])
    else s
  }

  /** The result of `Strip` is a slice of its input with only whitespace cut
      off on either side. */
  lemma {:induction false} StripTrims(s: string)
    ensures exists i :: Trims(s, i, Strip(s))
    decreases |s|
  {
    var r := Strip(s);
    if |s| > 0 && IsSpace(s[0]) {
      StripTrims(s[1..]);
      var i :| Trims(s[1..], i, r);
      TrimsLeadingSpace(s, i, r);
    } else if |s| > 0 && IsSpace(s[|s| - 1]) {
      StripTrims(s[..|s| - 1]);
      var i :| Trims(s[..|s| - 1], i, r);
      TrimsTrailingSpace(s, i, r);
    } else {
      assert Trims(s, 0, s);
    }
  }

  /** A trim of the text after a leading space is a trim of the whole text. */
  lemma TrimsLeadingSpace(s: string, i: int, r: string)
    requires |s| > 0 && IsSpace(s[0]) && Trims(s[1..], i, r)
    ensures Trims(s, i + 1, r)
  {
    assert s[i + 1..i + 1 + |r|] == s[1..][i..i + |r|];
    assert s[..i + 1][1..] == s[1..][..i];
    assert s[i + 1 + |r|..] == s[1..][i + |r|..];
  }

  /** A trim of the text before a trailing space is a trim of the whole text. */
  lemma TrimsTrailingSpace(s: string, i: int, r: string)
    requires |s| > 0 && IsSpace(s[|s| - 1]) && Trims(s[..|s| - 1], i, r)
    ensures Trims(s, i, r)
  {
    assert s[i..i + |r|] == s[..|s| - 1][i..i + |r|];
    assert s[..i] == s[..|s| - 1][..i];
    var t, c := s[..|s| - 1], s[|s| - 1];
    assert s == t + [c];
    DropSnoc(t, c, i + |r|);
    assert AllSpace([s[|s| - 1]]) by {
      assert [s[|s| - 1]][1..] == [];
    }
    AllSpaceConcat(s[..|s| - 1][i + |r|..], [s[|s| - 1]]);
  }

  /** Dropping a prefix of `t` and then appending `c` is dropping that prefix
      of `t + [c]`. */
  lemma DropSnoc(t: string, c: char, j: int)
    requires 0 <= j <= |t|
    ensures (t + [c])[j..] == t[j..] + [c]
  {
  }

  /** Stripping text that is already stripped changes nothing; in particular
      `Strip` is idempotent. */
  lemma StripStable(s: string)
    requires IsStripped(s)
    ensures Strip(s) == s
  {
  }

  lemma StripIdempotent(s: string)
    ensures Strip(Strip(s)) == Strip(s)
  {
    StripStable(Strip(s));
  }

  /** A leading whitespace character does not survive `strip()`. */
  lemma StripSkipsLeadingSpace(c: char, s: string)
    requires IsSpace(c)
    ensures Strip([c] + s) == Strip(s)
  {
    assert ([c] + s)[1..] == s;
  }

  /** Text made only of whitespace strips to nothing. */
  lemma {:induction false} StripAllSpace(s: string)
    requires AllSpace(s)
    ensures Strip(s) == ""
    decreases |s|
  {
    if |s| > 0 {
      StripAllSpace(s[1..]);
    }
  }

  /** Stripping only removes characters, so it cannot introduce `x`. */
  lemma StripKeepsOut(s: string, x: char)
    requires x !in s
    ensures x !in Strip(s)
  {
    var r := Strip(s);
    StripTrims(s);
    var i :| Trims(s, i, r);
    forall k | 0 <= k < |r|
      ensures r[k] != x
    {
      assert r[k] == s[i + k];
    }
  }

  /** `sep.join(parts)`. */
  function Join(parts: seq<string>, sep: char): string {
    if |parts| == 0 then ""
    else if |parts| == 1 then parts[0]
    else parts[0] + [sep] + Join(parts[1..], sep)
  }

  /** A character missing from a join is missing from every part. */
  lemma {:induction false} JoinKeepsOut(parts: seq<string>, sep: char, x: char)
    requires x !in Join(parts, sep)
    ensures forall k :: 0 <= k < |parts| ==> x !in parts[k]
    decreases |parts|
  {
    if |parts| > 1 {
      assert Join(parts, sep) == parts[0] + [sep] + Join(parts[1..], sep);
      JoinKeepsOut(parts[1..], sep, x);
      forall k | 1 <= k < |parts|
        ensures x !in parts[k]
      {
        assert parts[k] == parts[1..][k - 1];
      }
    }
  }

  /** `s.split(sep)` for a one-character separator: never empty, no piece holds
      the separator, and joining the pieces gives back `s`. */
  function Split(s: string, sep: char): (r: seq<string>)
    ensures |r| >= 1
    ensures forall k :: 0 <= k < |r| ==> sep !in r[k]
    ensures Join(r, sep) == s
    decreases |s|
  {
    if |s| == 0 then [""]
    else
      var rest := Split(s[1..], sep);
      if s[0] == sep then
        assert [sep] + Join(rest, sep) == s;
        [""] + rest
      else
        var r := [[s[0]] + rest[0]] + rest[1..];
        assert r[1..] == rest[1..];
        r
  }

  /** Text without the separator is a single piece. */
  lemma {:induction false} SplitNoSep(a: string, sep: char)
    requires sep !in a
    ensures Split(a, sep) == [a]
    decreases |a|
  {
    if |a| > 0 {
      SplitNoSep(a[1..], sep);
      assert [a[0]] + a[1..] == a;
    }
  }

  /** Splitting `a + sep + b`, with no separator in `a`, yields `a` and then
      the pieces of `b`. */
  lemma {:induction false} SplitCons(a: string, b: string, sep: char)
    requires sep !in a
    ensures Split(a + [sep] + b, sep) == [a] + Split(b, sep)
    decreases |a|
  {
    var s := a + [sep] + b;
    if |a| == 0 {
      assert s[1..] == b;
    } else {
      assert s[1..] == a[1..] + [sep] + b;
      SplitCons(a[1..], b, sep);
      assert [a[0]] + a[1..] == a;
    }
  }

  /** `split` inverts `join` when no piece holds the separator. */
  lemma {:induction false} SplitJoin(parts: seq<string>, sep: char)
    requires |parts| >= 1
    requires forall k :: 0 <= k < |parts| ==> sep !in parts[k]
    ensures Split(Join(parts, sep), sep) == parts
  {
    if |parts| == 1 {
      SplitNoSep(parts[0], sep);
    } else {
      SplitJoin(parts[1..], sep);
      SplitCons(parts[0], Join(parts[1..], sep), sep);
      assert [parts[0]] + parts[1..] == parts;
    }
  }

  /** Two-argument `os.path.join` on POSIX paths: an absolute second part
      replaces the first; otherwise the second part follows the first, with
      one `/` between them unless the first is empty or already ends in one.
      `PathJoinParts` states what the result keeps of its parts. */
  function PathJoin(a: string, b: string): string {
    if |b| > 0 && b[0] == '/' then b
    else if |a| == 0 || a[|a| - 1] == '/' then a + b
    else a + "/" + b
  }

  /** What `PathJoin` keeps of its parts: an absolute second part is the
      whole result; otherwise the result starts with the first part, ends
      with the second, and holds one extra `/` exactly when the first part
      is non-empty and does not already end in one. */
  lemma PathJoinParts(a: string, b: string)
    ensures var r := PathJoin(a, b);
      && (|b| > 0 && b[0] == '/' ==> r == b)
      && (!(|b| > 0 && b[0] == '/') ==>
        && |a| + |b| <= |r| <= |a| + |b| + 1
        && r[..|a|] == a && r[|r| - |b|..] == b
        && (|r| > |a| + |b| <==> |a| > 0 && a[|a| - 1] != '/')
        && (|r| > |a| + |b| ==> r[|a|] == '/'))
  {
    var r := PathJoin(a, b);
    if !(|b| > 0 && b[0] == '/') {
      if |a| == 0 || a[|a| - 1] == '/' {
        assert r == a + b;
      } else {
        assert r == a + "/" + b;
        assert r[|a|] == '/';
      }
    }
  }

  /** What a text-mode `read()` returns in Python 3 for a file holding `s`:
      universal newlines turn each `\r\n` pair and each lone `\r` into `\n`. */
  function ReadText(s: string): (r: string)
    ensures '\r' !in r
    ensures |r| <= |s|
    decreases |s|
  {
    if |s| == 0 then ""
    else if s[0] == '\r' then
      if |s| > 1 && s[1] == '\n' then "\n" + ReadText(s[2..]) else "\n" + ReadText(s[1..])
    else [s[0]] + ReadText(s[1..])
  }

  /** Text without a carriage return reads back unchanged. */
  lemma {:induction false} ReadTextPlain(s: string)
    requires '\r' !in s
    ensures ReadText(s) == s
    decreases |s|
  {
    if |s| > 0 {
      assert s[0] != '\r' && '\r' !in s[1..];
      ReadTextPlain(s[1..]);
      assert [s[0]] + s[1..] == s;
    }
  }

  /** Reading splits at any point that does not part a `\r\n` pair. */
  lemma {:induction false} ReadTextAppend(a: string, b: string)
    requires |a| == 0 || |b| == 0 || a[|a| - 1] != '\r' || b[0] != '\n'
    ensures ReadText(a + b) == ReadText(a) + ReadText(b)
    decreases |a|, 1
  {
    if |a| == 0 {
      assert a + b == b;
    } else if a[0] != '\r' {
      ReadTextAppendChar(a, b);
    } else if |a| == 1 {
      var s := a + b;
      assert s[0] == '\r' && s[1..] == b;
      assert ReadText(s) == "\n" + ReadText(b);
      assert ReadText(a) == "\n" + ReadText(a[1..]);
    } else if a[1] == '\n' {
      ReadTextAppendCrLf(a, b);
    } else {
      ReadTextAppendCr(a, b);
    }
  }

  /** `ReadTextAppend` when `a` starts with an ordinary character. */
  lemma {:induction false} ReadTextAppendChar(a: string, b: string)
    requires |a| > 0 && a[0] != '\r'
    requires |b| == 0 || a[|a| - 1] != '\r' || b[0] != '\n'
    ensures ReadText(a + b) == ReadText(a) + ReadText(b)
    decreases |a|, 0
  {
    var s := a + b;
    assert s[0] == a[0] && s[1..] == a[1..] + b;
    assert ReadText(s) == [a[0]] + ReadText(a[1..] + b);
    assert ReadText(a) == [a[0]] + ReadText(a[1..]);
    ReadTextAppend(a[1..], b);
  }

  /** `ReadTextAppend` when `a` starts with a `\r\n` pair. */
  lemma {:induction false} ReadTextAppendCrLf(a: string, b: string)
    requires |a| > 1 && a[0] == '\r' && a[1] == '\n'
    requires |b| == 0 || a[|a| - 1] != '\r' || b[0] != '\n'
    ensures ReadText(a + b) == ReadText(a) + ReadText(b)
    decreases |a|, 0
  {
    var s := a + b;
    assert s[0] == '\r' && s[1] == '\n' && s[2..] == a[2..] + b;
    assert ReadText(s) == "\n" + ReadText(a[2..] + b);
    assert ReadText(a) == "\n" + ReadText(a[2..]);
    ReadTextAppend(a[2..], b);
  }

  /** `ReadTextAppend` when `a` starts with a lone `\r` followed by more text. */
  lemma {:induction false} ReadTextAppendCr(a: string, b: string)
    requires |a| > 1 && a[0] == '\r' && a[1] != '\n'
    requires |b| == 0 || a[|a| - 1] != '\r' || b[0] != '\n'
    ensures ReadText(a + b) == ReadText(a) + ReadText(b)
    decreases |a|, 0
  {
    var s := a + b;
    assert s[0] == '\r' && s[1] == a[1] && s[1..] == a[1..] + b;
    assert ReadText(s) == "\n" + ReadText(a[1..] + b);
    assert ReadText(a) == "\n" + ReadText(a[1..]);
    ReadTextAppend(a[1..], b);
  }

  /** A `\r\n` pair reads as one newline, whatever surrounds it. */
  lemma ReadTextCrLf(a: string, b: string)
    ensures ReadText(a + "\r\n" + b) == ReadText(a) + "\n" + ReadText(b)
  {
    var t := "\r\n" + b;
    assert t[0] == '\r' && t[1] == '\n' && t[2..] == b;
    assert ReadText(t) == "\n" + ReadText(b);
    assert a + "\r\n" + b == a + t;
    ReadTextAppend(a, t);
  }

  /** A carriage return not followed by a line feed reads as one newline. */
  lemma ReadTextLoneCr(a: string, b: string)
    requires |b| == 0 || b[0] != '\n'
    ensures ReadText(a + "\r" + b) == ReadText(a) + "\n" + ReadText(b)
  {
    var t := "\r" + b;
    assert t[0] == '\r' && t[1..] == b;
    if |b| > 0 {
      assert t[1] == b[0];
    }
    assert ReadText(t) == "\n" + ReadText(b);
    assert a + "\r" + b == a + t;
    ReadTextAppend(a, t);
  }

  /** Reading what was read changes nothing more. */
  lemma ReadTextIdempotent(s: string)
    ensures ReadText(ReadText(s)) == ReadText(s)
  {
    ReadTextPlain(ReadText(s));
  }
}

/** The JavaScript string operations the handlers rely on (`trim`, `split` with a
    one-character separator, `includes`, `startsWith`, `endsWith`, `length`),
    written over Dafny strings, whose characters are Unicode scalar values. */
module JsString {

  /** The code points ECMAScript's `String.prototype.trim` removes: the
      WhiteSpace production (TAB, VT, FF, ZWNBSP and every space separator)
      and the LineTerminator production (LF, CR, LS, PS). */
  predicate IsWhitespace(c: char)
  {
    c == '\t' || c == '\n' || c == '\U{000B}' || c == '\U{000C}' || c == '\r'
    || c == ' ' || c == '\U{00A0}' || c == '\U{1680}'
    || ('\U{2000}' <= c <= '\U{200A}')
    || c == '\U{2028}' || c == '\U{2029}' || c == '\U{202F}' || c == '\U{205F}'
    || c == '\U{3000}' || c == '\U{FEFF}'
  }

  predicate AllWhitespace(s: string)
  {
    forall k :: 0 <= k < |s| ==> IsWhitespace(s[k])
  }

  /** `s.startsWith(prefix)` */
  predicate StartsWith(s: string, prefix: string)
  {
    |prefix| <= |s| && s[..|prefix|] == prefix
  }

  /** `s.endsWith(suffix)` */
  predicate EndsWith(s: string, suffix: string)
  {
    |suffix| <= |s| && s[|s| - |suffix|..] == suffix
  }

  /** `s.includes(t)`: `t` occurs somewhere in `s`. */
  predicate Includes(s: string, t: string)
    decreases |s|
  {
    StartsWith(s, t) || (|s| > 0 && Includes(s[1..], t))
  }

  /** For a one-character needle, `includes` is plain membership. */
  lemma {:induction false} IncludesChar(s: string, c: char)
    ensures Includes(s, [c]) <==> c in s
  {
    if |s| > 0 {
      IncludesChar(s[1..], c);
      assert s == [s[0]] + s[1..];
    }
  }

  /** The leading-whitespace half of `trim`: the longest suffix of `s` that
      does not start with whitespace. */
  function TrimStart(s: string): string
  {
    if |s| > 0 && IsWhitespace(s[0]) then TrimStart(s[1..]) else s
  }

  /** `TrimStart` keeps a suffix, drops only whitespace before it, and the
      suffix does not start with whitespace. */
  lemma {:induction false} TrimStartShape(s: string)
    ensures var r := TrimStart(s);
      && |r| <= |s| && r == s[|s| - |r|..]
      && (forall k :: 0 <= k < |s| - |r| ==> IsWhitespace(s[k]))
      && (r == [] || !IsWhitespace(r[0]))
  {
    if |s| > 0 && IsWhitespace(s[0]) {
      TrimStartShape(s[1..]);
      var r := TrimStart(s);
      assert r == TrimStart(s[1..]);
      assert s[1..][|s| - 1 - |r|..] == s[|s| - |r|..];
      forall k | 0 <= k < |s| - |r| ensures IsWhitespace(s[k]) {
        if k > 0 {
          assert s[k] == s[1..][k - 1];
        }
      }
    }
  }

  /** The trailing-whitespace half of `trim`: the longest prefix of `s` that
      does not end with whitespace. */
  function TrimEnd(s: string): string
  {
    if |s| > 0 && IsWhitespace(s[|s| - 1]) then TrimEnd(s[..|s| - 1]) else s
  }

  /** `TrimEnd` keeps a prefix, drops only whitespace after it, and the
      prefix does not end with whitespace. */
  lemma {:induction false} TrimEndShape(s: string)
    ensures var r := TrimEnd(s);
      && |r| <= |s| && r == s[..|r|]
      && (forall k :: |r| <= k < |s| ==> IsWhitespace(s[k]))
      && (r == [] || !IsWhitespace(r[|r| - 1]))
  {
    if |s| > 0 && IsWhitespace(s[|s| - 1]) {
      TrimEndShape(s[..|s| - 1]);
      var r := TrimEnd(s);
      assert r == TrimEnd(s[..|s| - 1]);
      assert s[..|s| - 1][..|r|] == s[..|r|];
      forall k | |r| <= k < |s| ensures IsWhitespace(s[k]) {
        if k < |s| - 1 {
          assert s[k] == s[..|s| - 1][k];
        }
      }
    }
  }

  /** `s.trim()` */
  function Trim(s: string): string
  {
    TrimEnd(TrimStart(s))
  }

  /** An all-whitespace string is trimmed away entirely. */
  lemma {:induction false} TrimStartOfWhitespace(s: string)
    requires AllWhitespace(s)
    ensures TrimStart(s) == []
  {
    if s != [] {
      assert IsWhitespace(s[0]);
      TrimStartOfWhitespace(s[1..]);
    }
  }

  /** `trim` yields the empty string exactly for all-whitespace input. */
  lemma TrimEmptyIffWhitespace(s: string)
    ensures Trim(s) == [] <==> AllWhitespace(s)
  {
    if AllWhitespace(s) {
      TrimStartOfWhitespace(s);
    }
    var t := TrimStart(s);
    TrimStartShape(s);
    TrimEndShape(t);
    assert TrimEnd(t) == [] ==> t == [] by {
      if t != [] {
        assert !IsWhitespace(t[0]);
      }
    }
  }

  /** Leading whitespace before a non-blank string is all `trimStart` removes:
      whatever follows is kept verbatim. */
  lemma {:induction false} TrimStartAppend(a: string, b: string)
    requires TrimStart(a) != []
    ensures TrimStart(a + b) == TrimStart(a) + b
  {
    if |a| > 0 && IsWhitespace(a[0]) {
      assert (a + b)[1..] == a[1..] + b;
      TrimStartAppend(a[1..], b);
    } else {
      assert |a| > 0;
      assert (a + b)[0] == a[0];
    }
  }

  /** A string whose last character is not whitespace protects itself from
      `trimEnd` of anything appended to it. */
  lemma {:induction false} TrimEndAfterSolid(a: string, b: string)
    requires |a| > 0 && !IsWhitespace(a[|a| - 1])
    ensures TrimEnd(a + b) == a + TrimEnd(b)
    decreases |b|
  {
    if b == [] {
      assert a + b == a;
    } else if IsWhitespace(b[|b| - 1]) {
      assert (a + b)[..|a + b| - 1] == a + b[..|b| - 1];
      TrimEndAfterSolid(a, b[..|b| - 1]);
    } else {
      assert (a + b)[|a + b| - 1] == b[|b| - 1];
    }
  }

  /** Appended whitespace disappears under `trimEnd`. */
  lemma {:induction false} TrimEndDropsWhitespace(a: string, w: string)
    requires AllWhitespace(w)
    ensures TrimEnd(a + w) == TrimEnd(a)
    decreases |w|
  {
    if w == [] {
      assert a + w == a;
    } else {
      assert (a + w)[|a + w| - 1] == w[|w| - 1];
      assert (a + w)[..|a + w| - 1] == a + w[..|w| - 1];
      TrimEndDropsWhitespace(a, w[..|w| - 1]);
    }
  }

  /** Appended whitespace disappears under `trim`. */
  lemma TrimDropsWhitespace(a: string, w: string)
    requires AllWhitespace(w)
    ensures Trim(a + w) == Trim(a)
  {
    if TrimStart(a) != [] {
      TrimStartAppend(a, w);
      TrimEndDropsWhitespace(TrimStart(a), w);
    } else {
      TrimEmptyIffWhitespace(a);
      assert AllWhitespace(a + w) by {
        forall k | 0 <= k < |a + w| ensures IsWhitespace((a + w)[k]) {
          if k < |a| { assert (a + w)[k] == a[k]; } else { assert (a + w)[k] == w[k - |a|]; }
        }
      }
      TrimEmptyIffWhitespace(a + w);
    }
  }

  /** `parts.join(sep)` */
  function Join(parts: seq<string>, sep: char): string
    requires |parts| >= 1
  {
    if |parts| == 1 then parts[0] else parts[0] + [sep] + Join(parts[1..], sep)
  }

  /** `s.split(sep)` for a one-character separator. */
  function Split(s: string, sep: char): (parts: seq<string>)
    ensures |parts| >= 1
  {
    if s == [] then [[]]
    else
      var rest := Split(s[1..], sep);
      if s[0] == sep then [[]] + rest
      else [[s[0]] + rest[0]] + rest[1..]
  }

  /** No piece of `split` contains the separator, and joining the pieces
      gives back the original string. */
  lemma {:induction false} SplitJoinsBack(s: string, sep: char)
    ensures forall k :: 0 <= k < |Split(s, sep)| ==> sep !in Split(s, sep)[k]
    ensures Join(Split(s, sep), sep) == s
  {
    if s != [] {
      SplitJoinsBack(s[1..], sep);
      var rest := Split(s[1..], sep);
      assert s == [s[0]] + s[1..];
      if s[0] == sep {
        assert Split(s, sep)[1..] == rest;
      } else {
        var parts := [[s[0]] + rest[0]] + rest[1..];
        assert Split(s, sep) == parts;
        assert parts[1..] == rest[1..];
        if |rest| > 1 {
          assert Join(parts, sep) == [s[0]] + rest[0] + [sep] + Join(rest[1..], sep);
        }
      }
    }
  }

  /** Without the separator there is exactly one piece. */
  lemma {:induction false} SplitWithoutSeparator(s: string, sep: char)
    requires sep !in s
    ensures Split(s, sep) == [s]
  {
    if s != [] {
      assert s == [s[0]] + s[1..];
      SplitWithoutSeparator(s[1..], sep);
    }
  }

  /** One step of `split`: the first character either starts a new piece or
      joins the first piece of the rest. */
  lemma SplitCons(c: char, t: string, sep: char)
    ensures var rest := Split(t, sep);
      Split([c] + t, sep) == if c == sep then [[]] + rest else [[c] + rest[0]] + rest[1..]
  {
    assert ([c] + t)[0] == c && ([c] + t)[1..] == t;
  }

  /** The step of `split` distributes over appending further pieces. */
  lemma SplitStepAppend(c: char, sep: char, ra: seq<string>, rb: seq<string>)
    requires |ra| >= 1
    ensures var r := ra + rb;
      (if c == sep then [[]] + r else [[c] + r[0]] + r[1..]) ==
      (if c == sep then [[]] + ra else [[c] + ra[0]] + ra[1..]) + rb
  {
    var r := ra + rb;
    if c != sep {
      assert r[0] == ra[0] && r[1..] == ra[1..] + rb;
    }
  }

  /** Splitting at a separator splits the two sides independently. */
  lemma {:induction false} SplitAtSeparator(a: string, b: string, sep: char)
    ensures Split(a + [sep] + b, sep) == Split(a, sep) + Split(b, sep)
  {
    if a == [] {
      assert a + [sep] + b == [sep] + b;
      SplitCons(sep, b, sep);
    } else {
      var t := a[1..] + [sep] + b;
      SplitAtSeparator(a[1..], b, sep);
      assert a + [sep] + b == [a[0]] + t;
      assert a == [a[0]] + a[1..];
      SplitCons(a[0], t, sep);
      SplitCons(a[0], a[1..], sep);
      SplitStepAppend(a[0], sep, Split(a[1..], sep), Split(b, sep));
    }
  }

  /** `parts` with `w` appended to its last piece. */
  function ExtendLast(parts: seq<string>, w: string): (r: seq<string>)
    requires |parts| >= 1
    ensures |r| == |parts|
  {
    parts[..|parts| - 1] + [parts[|parts| - 1] + w]
  }

  /** Text without the separator appended to `a` extends its last piece. */
  lemma {:induction false} SplitAppendWithoutSeparator(a: string, w: string, sep: char)
    requires sep !in w
    ensures Split(a + w, sep) == ExtendLast(Split(a, sep), w)
  {
    if a == [] {
      assert a + w == w;
      SplitWithoutSeparator(w, sep);
      assert ExtendLast([[]], w) == [w];
    } else {
      var s := a + w;
      assert s[0] == a[0] && s[1..] == a[1..] + w;
      SplitAppendWithoutSeparator(a[1..], w, sep);
      var q := Split(a[1..], sep);
      var r := ExtendLast(q, w);
      assert Split(s[1..], sep) == r;
      if a[0] == sep {
        assert Split(a, sep) == [[]] + q;
        assert Split(s, sep) == [[]] + r;
        assert ExtendLast([[]] + q, w) == [[]] + r;
      } else {
        assert Split(a, sep) == [[a[0]] + q[0]] + q[1..];
        assert Split(s, sep) == [[a[0]] + r[0]] + r[1..];
        ExtendLastCons(a[0], q, w);
      }
    }
  }

  lemma ExtendLastCons(c: char, q: seq<string>, w: string)
    requires |q| >= 1
    ensures var r := ExtendLast(q, w);
      ExtendLast([[c] + q[0]] + q[1..], w) == [[c] + r[0]] + r[1..]
  {
    var p := [[c] + q[0]] + q[1..];
    var r := ExtendLast(q, w);
    if |q| == 1 {
      assert r == [q[0] + w];
      assert ExtendLast(p, w) == [([c] + q[0]) + w];
      assert [c] + (q[0] + w) == ([c] + q[0]) + w;
    } else {
      assert r[0] == q[0];
      assert r[1..] == q[1..|q| - 1] + [q[|q| - 1] + w];
      assert p[..|p| - 1] == [[c] + q[0]] + q[1..|q| - 1];
    }
  }

  /** `split` undoes `join` when no piece contains the separator; with
      `Split`'s own contract this makes the two mutually inverse. */
  lemma {:induction false} SplitJoin(parts: seq<string>, sep: char)
    requires |parts| >= 1
    requires forall k :: 0 <= k < |parts| ==> sep !in parts[k]
    ensures Split(Join(parts, sep), sep) == parts
  {
    SplitWithoutSeparator(parts[0], sep);
    if |parts| > 1 {
      SplitJoin(parts[1..], sep);
      SplitAtSeparator(parts[0], Join(parts[1..], sep), sep);
      assert parts == [parts[0]] + parts[1..];
    }
  }

  /** The first piece of `split` is the text before the first separator. */
  lemma FirstPiece(s: string, sep: char)
    requires sep in s
    ensures var head := Split(s, sep)[0];
      sep !in head && |head| < |s| && s[..|head|] == head && s[|head|] == sep
  {
    var parts := Split(s, sep);
    SplitJoinsBack(s, sep);
    assert |parts| > 1;
    assert s == parts[0] + [sep] + Join(parts[1..], sep);
  }

  /** `s.length`: JavaScript counts UTF-16 code units, so a code point beyond
      the Basic Multilingual Plane counts twice. */
  function Utf16Length(s: string): (n: nat)
    ensures |s| <= n <= 2 * |s|
  {
    if s == [] then 0 else (if s[0] as int > 0xFFFF then 2 else 1) + Utf16Length(s[1..])
  }
}

/**
 * The string primitives the sheet parser is built from, with the meaning
 * JavaScript gives them: `String.prototype.trim`, `split` on a one-character
 * separator, and the quote stripping `replace(/^"|"$/g, '')`.
 */
module Text {

  /** The characters `trim` removes: ECMAScript WhiteSpace and LineTerminator. */
  predicate IsSpace(c: char) {
    || c == '\t' || c == '\n' || c == '\U{000B}' || c == '\U{000C}' || c == '\r' || c == ' '
    || c == '\U{00A0}' || c == '\U{1680}' || ('\U{2000}' <= c <= '\U{200A}')
    || c == '\U{2028}' || c == '\U{2029}' || c == '\U{202F}' || c == '\U{205F}'
    || c == '\U{3000}' || c == '\U{FEFF}'
  }

  predicate AllSpace(s: string) {
    forall i :: 0 <= i < |s| ==> IsSpace(s[i])
  }

  /** Removes leading white space: the result is a suffix of `s`, what was cut is all space. */
  function TrimStart(s: string): (r: string)
    ensures |r| <= |s| && r == s[|s| - |r|..]
    ensures forall i :: 0 <= i < |s| - |r| ==> IsSpace(s[i])
    ensures r == [] || !IsSpace(r[0])
  {
    if |s| > 0 && IsSpace(s[0]) then TrimStart(s[1..]) else s
  }

  /** Removes trailing white space: the result is a prefix of `s`, what was cut is all space. */
  function TrimEnd(s: string): (r: string)
    ensures |r| <= |s| && r == s[..|r|]
    ensures forall i :: |r| <= i < |s| ==> IsSpace(s[i])
    ensures r == [] || !IsSpace(r[|r| - 1])
  {
    if |s| > 0 && IsSpace(s[|s| - 1]) then TrimEnd(s[..|s| - 1]) else s
  }

  /**
   * `s.trim()`: the result is the slice of `s` between a run of leading and a
   * run of trailing white space, and it neither starts nor ends with space.
   */
  function Trim(s: string): (r: string)
    ensures Trimmed(s, |s| - |TrimStart(s)|, r)
  {
    PrefixOfSuffix(s, TrimStart(s), TrimEnd(TrimStart(s)));
    TrimEnd(TrimStart(s))
  }

  /**
   * `r` is the slice of `s` from `a` between a run of leading and a run of
   * trailing white space, and neither starts nor ends with white space.
   */
  ghost predicate Trimmed(s: string, a: int, r: string) {
    && 0 <= a && a + |r| <= |s|
    && r == s[a..a + |r|]
    && (forall i :: 0 <= i < a ==> IsSpace(s[i]))
    && (forall i :: a + |r| <= i < |s| ==> IsSpace(s[i]))
    && (r == [] || (!IsSpace(r[0]) && !IsSpace(r[|r| - 1])))
  }

  /**
   * Space-free ends carry over: when `t` is a suffix of `s` after leading
   * space and `r` a prefix of `t` before trailing space, `r` is the slice of
   * `s` between the two runs of space.
   */
  lemma PrefixOfSuffix(s: string, t: string, r: string)
    requires |t| <= |s| && t == s[|s| - |t|..]
    requires forall i :: 0 <= i < |s| - |t| ==> IsSpace(s[i])
    requires t == [] || !IsSpace(t[0])
    requires |r| <= |t| && r == t[..|r|]
    requires forall i :: |r| <= i < |t| ==> IsSpace(t[i])
    requires r == [] || !IsSpace(r[|r| - 1])
    ensures Trimmed(s, |s| - |t|, r)
  {
    var a := |s| - |t|;
    forall i | a + |r| <= i < |s| ensures IsSpace(s[i]) {
      assert s[i] == t[i - a];
    }
    if r != [] {
      assert r[0] == t[0];
    }
  }

  lemma TrimOfUnpadded(s: string)
    requires s == [] || (!IsSpace(s[0]) && !IsSpace(s[|s| - 1]))
    ensures Trim(s) == s
  {
  }

  /** Trimming twice is trimming once. */
  lemma TrimIdempotent(s: string)
    ensures Trim(Trim(s)) == Trim(s)
  {
    TrimOfUnpadded(Trim(s));
  }

  /** A string trims to nothing exactly when it is all white space. */
  lemma TrimEmptyIffAllSpace(s: string)
    ensures Trim(s) == [] <==> AllSpace(s)
  {
    if AllSpace(s) {
      assert s + [] == s;
      TrimStartSkipsSpace(s, []);
    }
  }

  /** Leading white space does not survive `TrimStart`. */
  lemma {:induction false} TrimStartSkipsSpace(w: string, x: string)
    requires AllSpace(w)
    ensures TrimStart(w + x) == TrimStart(x)
  {
    if |w| > 0 {
      assert (w + x)[0] == w[0] && IsSpace(w[0]);
      assert (w + x)[1..] == w[1..] + x;
      var v := w[1..];
      assert AllSpace(v) by {
        forall i | 0 <= i < |v| ensures IsSpace(v[i]) { assert v[i] == w[i + 1]; }
      }
      TrimStartSkipsSpace(w[1..], x);
    } else {
      assert w + x == x;
    }
  }

  /** Trailing white space does not survive `TrimEnd`. */
  lemma {:induction false} TrimEndSkipsSpace(x: string, w: string)
    requires AllSpace(w)
    ensures TrimEnd(x + w) == TrimEnd(x)
  {
    if |w| > 0 {
      assert (x + w)[|x + w| - 1] == w[|w| - 1] && IsSpace(w[|w| - 1]);
      assert (x + w)[..|x + w| - 1] == x + w[..|w| - 1];
      var v := w[..|w| - 1];
      assert AllSpace(v) by {
        forall i | 0 <= i < |v| ensures IsSpace(v[i]) { assert v[i] == w[i]; }
      }
      TrimEndSkipsSpace(x, w[..|w| - 1]);
    } else {
      assert x + w == x;
    }
  }

  /** Padding a string with white space does not change what it trims to. */
  lemma TrimPadded(w1: string, m: string, w2: string)
    requires AllSpace(w1) && AllSpace(w2)
    requires m == [] || (!IsSpace(m[0]) && !IsSpace(m[|m| - 1]))
    ensures Trim(w1 + m + w2) == m
  {
    var s := w1 + m + w2;
    assert s == w1 + (m + w2);
    TrimStartSkipsSpace(w1, m + w2);
    if m == [] {
      assert m + w2 == w2 + [];
      TrimStartSkipsSpace(w2, []);
      assert TrimStart(s) == [];
    } else {
      assert (m + w2)[0] == m[0];
      assert TrimStart(s) == m + w2;
      TrimEndSkipsSpace(m, w2);
      assert TrimEnd(m) == m;
    }
    TrimSteps(s);
  }

  /** `Trim` is `TrimEnd` after `TrimStart`. */
  lemma TrimSteps(s: string)
    ensures Trim(s) == TrimEnd(TrimStart(s))
  {
  }

  /**
   * `t.replace(/^"|"$/g, '')`: removes one leading `"` and then one trailing `"`
   * of what remains. A lone `"` becomes the empty string.
   */
  function StripQuotes(t: string): (r: string)
    ensures |t| - 2 <= |r| <= |t|
    // quoted at both ends: both quotes go
    ensures |t| >= 2 && t[0] == '"' && t[|t| - 1] == '"' ==> r == t[1..|t| - 1]
    // quoted at the start only: the first character goes
    ensures |t| > 0 && t[0] == '"' && t[|t| - 1] != '"' ==> r == t[1..]
    // quoted at the end only: the last character goes
    ensures |t| > 0 && t[0] != '"' && t[|t| - 1] == '"' ==> r == t[..|t| - 1]
    // quoted at neither end: nothing changes
    ensures (t == [] || (t[0] != '"' && t[|t| - 1] != '"')) ==> r == t
    // a lone quote is both the first and the last character, and goes once
    ensures t == "\"" ==> r == []
  {
    var u := if |t| > 0 && t[0] == '"' then t[1..] else t;
    if |u| > 0 && u[|u| - 1] == '"' then u[..|u| - 1] else u
  }

  /** Stripping undoes wrapping in one pair of quotes, whatever the content holds. */
  lemma StripQuotesUnwraps(m: string)
    ensures StripQuotes("\"" + m + "\"") == m
  {
    var t := "\"" + m + "\"";
    assert t[1..] == m + "\"";
    assert (m + "\"")[..|m|] == m;
  }

  /** Only one quote is removed at each end: an inner pair survives. */
  lemma StripQuotesOnce(m: string)
    ensures StripQuotes("\"\"" + m + "\"\"") == "\"" + m + "\""
  {
    assert "\"\"" + m + "\"\"" == "\"" + ("\"" + m + "\"") + "\"";
    StripQuotesUnwraps("\"" + m + "\"");
  }

  /** A leading quote alone is removed. */
  lemma StripQuotesLeading(m: string)
    requires m == [] || m[|m| - 1] != '"'
    ensures StripQuotes("\"" + m) == m
  {
    assert ("\"" + m)[1..] == m;
  }

  /** A trailing quote alone is removed. */
  lemma StripQuotesTrailing(m: string)
    requires m == [] || m[0] != '"'
    ensures StripQuotes(m + "\"") == m
  {
    assert (m + "\"")[..|m|] == m;
  }

  /** A lone quote is removed entirely. */
  lemma StripQuotesLone()
    ensures StripQuotes("\"") == ""
  {
  }

  /** A string with no quote at either end is left alone. */
  lemma StripQuotesUnquoted(t: string)
    requires t == [] || (t[0] != '"' && t[|t| - 1] != '"')
    ensures StripQuotes(t) == t
  {
  }

  /**
   * `s.split(c)` for a one-character separator `c`: the pieces between the
   * occurrences of `c`, keeping empty pieces; the empty string gives one
   * empty piece.
   */
  function Split(s: string, c: char): (parts: seq<string>)
    ensures |parts| >= 1
    ensures forall i :: 0 <= i < |parts| ==> c !in parts[i]
  {
    if |s| == 0 then [""]
    else
      var rest := Split(s[1..], c);
      if s[0] == c then [""] + rest
      else [[s[0]] + rest[0]] + rest[1..]
  }

  /** `parts.join(c)`: the inverse of `Split`. */
  function Join(parts: seq<string>, c: char): string
    requires |parts| >= 1
  {
    if |parts| == 1 then parts[0] else parts[0] + [c] + Join(parts[1..], c)
  }

  /** The number of occurrences of `c` in `s`. */
  function Count(s: string, c: char): nat {
    if s == [] then 0 else (if s[0] == c then 1 else 0) + Count(s[1..], c)
  }

  /** Joining the pieces back together gives the original string. */
  lemma {:induction false} JoinSplit(s: string, c: char)
    ensures Join(Split(s, c), c) == s
  {
    if |s| > 0 {
      var rest := Split(s[1..], c);
      JoinSplit(s[1..], c);
      if s[0] == c {
        assert Split(s, c)[1..] == rest;
      } else {
        var parts := Split(s, c);
        if |rest| == 1 {
          assert parts == [[s[0]] + rest[0]];
        } else {
          assert parts[1..] == rest[1..];
          assert Join(rest, c) == rest[0] + [c] + Join(rest[1..], c);
        }
      }
    }
  }

  /** Splitting a join of separator-free pieces gives the pieces back. */
  lemma {:induction false} SplitJoin(parts: seq<string>, c: char)
    requires |parts| >= 1
    requires forall i :: 0 <= i < |parts| ==> c !in parts[i]
    ensures Split(Join(parts, c), c) == parts
  {
    if |parts| == 1 {
      SplitFree(parts[0], c);
    } else {
      SplitJoin(parts[1..], c);
      SplitPrefix(parts[0], Join(parts[1..], c), c);
      assert [parts[0]] + parts[1..] == parts;
    }
  }

  /** A string without the separator is a single piece. */
  lemma {:induction false} SplitFree(s: string, c: char)
    requires c !in s
    ensures Split(s, c) == [s]
  {
    if |s| > 0 {
      SplitFree(s[1..], c);
      assert [s[0]] + s[1..] == s;
    }
  }

  /** A separator-free prefix followed by the separator starts a new piece. */
  lemma {:induction false} SplitPrefix(p: string, rest: string, c: char)
    requires c !in p
    ensures Split(p + [c] + rest, c) == [p] + Split(rest, c)
  {
    var s := p + [c] + rest;
    if |p| == 0 {
      assert s[1..] == rest;
    } else {
      assert s[1..] == p[1..] + [c] + rest;
      SplitPrefix(p[1..], rest, c);
      assert [p[0]] + p[1..] == p;
    }
  }

  /** There is one piece more than there are separators. */
  lemma {:induction false} SplitCount(s: string, c: char)
    ensures |Split(s, c)| == Count(s, c) + 1
  {
    if |s| > 0 {
      SplitCount(s[1..], c);
    }
  }

  /** `Count` counts the separator exactly when it occurs. */
  lemma {:induction false} CountPositive(s: string, c: char)
    ensures Count(s, c) > 0 <==> c in s
  {
    if |s| > 0 {
      CountPositive(s[1..], c);
      assert s == [s[0]] + s[1..];
    }
  }

  /** Every piece of a white-space-only string is white space. */
  lemma {:induction false} SplitAllSpace(s: string, c: char)
    requires AllSpace(s)
    ensures forall i :: 0 <= i < |Split(s, c)| ==> AllSpace(Split(s, c)[i])
  {
    if |s| > 0 {
      SplitAllSpace(s[1..], c);
      var rest := Split(s[1..], c);
      if s[0] != c {
        assert AllSpace([s[0]] + rest[0]) by {
          forall k | 0 <= k < |[s[0]] + rest[0]| ensures IsSpace(([s[0]] + rest[0])[k]) {
            if k > 0 { assert ([s[0]] + rest[0])[k] == rest[0][k - 1]; }
          }
        }
      }
    }
  }
}

/**
 * The few JavaScript string operations the application relies on, over
 * `string` (a sequence of UTF-16 code units in JavaScript, of characters here):
 * `Array.prototype.join` and `String.prototype.split` with a one-character
 * separator, `trim`, the `\s` character class, and a global one-character
 * `replace`.
 */
module Text {

  /** Membership in JavaScript's `\s` class, which is also the set `trim` removes:
      the WhiteSpace and LineTerminator code points of ECMAScript. */
  predicate IsWhitespace(c: char) {
    c == '\t' || c == '\n' || c == '\U{000B}' || c == '\U{000C}' || c == '\r' || c == ' '
    || c == '\U{00A0}' || c == '\U{1680}' || ('\U{2000}' <= c <= '\U{200A}')
    || c == '\U{2028}' || c == '\U{2029}' || c == '\U{202F}' || c == '\U{205F}'
    || c == '\U{3000}' || c == '\U{FEFF}'
  }

  predicate NoWhitespace(s: string) {
    forall i :: 0 <= i < |s| ==> !IsWhitespace(s[i])
  }

  /** `parts.join(sep)`: the parts with one `sep` between consecutive parts. */
  function Join(parts: seq<string>, sep: char): string {
    if |parts| == 0 then ""
    else if |parts| == 1 then parts[0]
    else parts[0] + [sep] + Join(parts[1..], sep)
  }

  /** `s.split(sep)`: the maximal `sep`-free pieces of `s`, always at least one. */
  function Split(s: string, sep: char): (r: seq<string>)
    ensures |r| >= 1
  {
    if |s| == 0 then [""]
    else
      var rest := Split(s[1..], sep);
      if s[0] == sep then [""] + rest else [[s[0]] + rest[0]] + rest[1..]
  }

  /** Splitting after a separator-free prefix glues that prefix to the first piece. */
  lemma {:induction false} SplitAfterPlainPrefix(p: string, t: string, sep: char)
    requires sep !in p
    ensures Split(p + t, sep) == [p + Split(t, sep)[0]] + Split(t, sep)[1..]
  {
    if |p| == 0 {
      assert p + t == t;
      assert p + Split(t, sep)[0] == Split(t, sep)[0];
      assert [Split(t, sep)[0]] + Split(t, sep)[1..] == Split(t, sep);
    } else {
      assert (p + t)[1..] == p[1..] + t;
      assert sep !in p[1..];
      SplitAfterPlainPrefix(p[1..], t, sep);
      assert [p[0]] + (p[1..] + Split(t, sep)[0]) == p + Split(t, sep)[0];
    }
  }

  /** Joining a part in front of further parts puts a separator between them. */
  lemma JoinCons(p: string, parts: seq<string>, sep: char)
    requires |parts| > 0
    ensures Join([p] + parts, sep) == p + ([sep] + Join(parts, sep))
  {
    assert ([p] + parts)[1..] == parts;
  }

  /** A leading separator splits off an empty first piece. */
  lemma SplitLeadingSeparator(t: string, sep: char)
    ensures Split([sep] + t, sep) == [""] + Split(t, sep)
  {
    assert ([sep] + t)[1..] == t;
  }

  /** Round trip: splitting a join gives back the parts when no part holds the separator. */
  lemma {:induction false} SplitJoin(parts: seq<string>, sep: char)
    requires |parts| >= 1
    requires forall i :: 0 <= i < |parts| ==> sep !in parts[i]
    ensures Split(Join(parts, sep), sep) == parts
  {
    if |parts| == 1 {
      SplitAfterPlainPrefix(parts[0], "", sep);
      assert parts[0] + "" == parts[0];
    } else {
      var tail := Join(parts[1..], sep);
      SplitJoin(parts[1..], sep);
      assert Split([sep] + tail, sep) == [""] + parts[1..] by {
        assert ([sep] + tail)[1..] == tail;
      }
      assert parts[0] + [sep] + Join(parts[1..], sep) == parts[0] + ([sep] + tail);
      SplitAfterPlainPrefix(parts[0], [sep] + tail, sep);
      assert parts[0] + "" == parts[0];
      assert [parts[0]] + parts[1..] == parts;
    }
  }

  /** Round trip the other way: joining the pieces of a split gives back the text. */
  lemma {:induction false} JoinSplit(s: string, sep: char)
    ensures Join(Split(s, sep), sep) == s
  {
    if |s| > 0 {
      var rest := Split(s[1..], sep);
      JoinSplit(s[1..], sep);
      if s[0] == sep {
        assert Join([""] + rest, sep) == "" + [sep] + Join(rest, sep) by {
          assert ([""] + rest)[1..] == rest;
        }
        assert s == [s[0]] + s[1..];
      } else {
        var r := [[s[0]] + rest[0]] + rest[1..];
        if |rest| == 1 {
          assert Join(r, sep) == [s[0]] + rest[0];
        } else {
          assert r[1..] == rest[1..];
          assert Join(rest, sep) == rest[0] + [sep] + Join(rest[1..], sep);
        }
        assert s == [s[0]] + s[1..];
      }
    }
  }

  /** No piece of a split holds the separator. */
  lemma {:induction false} SplitPiecesPlain(s: string, sep: char)
    ensures forall i :: 0 <= i < |Split(s, sep)| ==> sep !in Split(s, sep)[i]
  {
    if |s| > 0 {
      SplitPiecesPlain(s[1..], sep);
      var rest := Split(s[1..], sep);
      if s[0] != sep {
        assert sep !in [s[0]] + rest[0];
      }
    }
  }

  /** `s.trimStart()`. */
  function TrimStart(s: string): (r: string)
    ensures |r| <= |s|
    ensures |r| > 0 ==> !IsWhitespace(r[0])
  {
    if |s| > 0 && IsWhitespace(s[0]) then TrimStart(s[1..]) else s
  }

  /** `s.trimEnd()`. */
  function TrimEnd(s: string): (r: string)
    ensures |r| <= |s|
    ensures |r| > 0 ==> !IsWhitespace(r[|r| - 1])
  {
    if |s| > 0 && IsWhitespace(s[|s| - 1]) then TrimEnd(s[..|s| - 1]) else s
  }

  /** `s.trimStart()` drops a prefix of `s` that is all whitespace. */
  lemma {:induction false} TrimStartSuffix(s: string)
    ensures TrimStart(s) == s[|s| - |TrimStart(s)|..]
    ensures forall i :: 0 <= i < |s| - |TrimStart(s)| ==> IsWhitespace(s[i])
  {
    if |s| > 0 && IsWhitespace(s[0]) {
      TrimStartSuffix(s[1..]);
    }
  }

  /** `s.trimEnd()` drops a suffix of `s` that is all whitespace. */
  lemma {:induction false} TrimEndPrefix(s: string)
    ensures TrimEnd(s) == s[..|TrimEnd(s)|]
    ensures forall i :: |TrimEnd(s)| <= i < |s| ==> IsWhitespace(s[i])
  {
    if |s| > 0 && IsWhitespace(s[|s| - 1]) {
      TrimEndPrefix(s[..|s| - 1]);
    }
  }

  /** `s.trim()`: `s` without its leading and trailing whitespace. */
  function Trim(s: string): (r: string)
    ensures var lo := |s| - |TrimStart(s)|;
      lo + |r| <= |s| && r == s[lo..lo + |r|]
      && (forall i :: 0 <= i < lo ==> IsWhitespace(s[i]))
      && (forall i :: lo + |r| <= i < |s| ==> IsWhitespace(s[i]))
    ensures |r| > 0 ==> !IsWhitespace(r[0]) && !IsWhitespace(r[|r| - 1])
  {
    TrimStartSuffix(s);
    TrimEndPrefix(TrimStart(s));
    TrimEnd(TrimStart(s))
  }

  /** The length of the leading run of `s` that holds no whitespace. */
  function WordLength(s: string): (k: nat)
    ensures k <= |s| && NoWhitespace(s[..k])
    ensures k < |s| ==> IsWhitespace(s[k])
    ensures |s| > 0 && !IsWhitespace(s[0]) ==> k > 0
  {
    if |s| == 0 || IsWhitespace(s[0]) then 0 else WordLength(s[1..]) + 1
  }

  /** The words of `s`: its maximal runs without whitespace, in order. */
  function Words(s: string): (w: seq<string>)
    ensures forall i :: 0 <= i < |w| ==> |w[i]| > 0 && NoWhitespace(w[i])
    decreases |s|
  {
    var t := TrimStart(s);
    if |t| == 0 then []
    else
      var k := WordLength(t);
      [t[..k]] + Words(t[k..])
  }

  /** A word's length is determined by where its first whitespace is. */
  lemma {:induction false} WordLengthAt(s: string, k: nat)
    requires k <= |s| && NoWhitespace(s[..k]) && (k < |s| ==> IsWhitespace(s[k]))
    ensures WordLength(s) == k
  {
    if k > 0 {
      assert !IsWhitespace(s[..k][0]);
      assert s[1..][..k - 1] == s[..k][1..];
      WordLengthAt(s[1..], k - 1);
    }
  }

  /** Leading whitespace separates no words. */
  lemma WordsTrimStart(s: string)
    ensures Words(TrimStart(s)) == Words(s)
  {
    var t := TrimStart(s);
    assert TrimStart(t) == t;
  }

  /** Trimming the front of `a + b` stops inside `a` unless `a` is all whitespace. */
  lemma {:induction false} TrimStartAppend(a: string, b: string)
    ensures TrimStart(a + b) == if |TrimStart(a)| > 0 then TrimStart(a) + b else TrimStart(b)
  {
    if |a| > 0 && IsWhitespace(a[0]) {
      assert (a + b)[1..] == a[1..] + b;
      TrimStartAppend(a[1..], b);
    } else if |a| == 0 {
      assert a + b == b;
    }
  }

  /** Trailing whitespace separates no words. */
  lemma {:induction false} WordsAppendBlank(a: string, b: string)
    requires forall i :: 0 <= i < |b| ==> IsWhitespace(b[i])
    ensures Words(a + b) == Words(a)
    decreases |a|
  {
    var ta := TrimStart(a);
    TrimStartAppend(a, b);
    if |ta| == 0 {
      TrimStartSuffix(b);
    } else {
      var k := WordLength(ta);
      assert (ta + b)[..k] == ta[..k];
      WordLengthAt(ta + b, k);
      assert (ta + b)[k..] == ta[k..] + b;
      WordsAppendBlank(ta[k..], b);
    }
  }

  /** Trimming keeps the words. */
  lemma WordsTrim(s: string)
    ensures Words(Trim(s)) == Words(s)
  {
    var t := TrimStart(s);
    var e := TrimEnd(t);
    TrimEndPrefix(t);
    assert t == e + t[|e|..];
    WordsAppendBlank(e, t[|e|..]);
    WordsTrimStart(s);
  }

  /** `s.replace(/a/g, b)` for one character `a` and one character `b`. */
  function ReplaceChar(s: string, a: char, b: char): (r: string)
    ensures |r| == |s|
    ensures forall i :: 0 <= i < |s| ==> r[i] == if s[i] == a then b else s[i]
  {
    if |s| == 0 then "" else [if s[0] == a then b else s[0]] + ReplaceChar(s[1..], a, b)
  }

  /** The position just after the last `sep` in `s`, or 0 when there is none. */
  function AfterLastSeparator(s: string, sep: char): (k: nat)
    ensures k <= |s| && sep !in s[k..] && (k > 0 ==> s[k - 1] == sep)
  {
    if |s| == 0 then 0
    else if s[|s| - 1] == sep then |s|
    else
      var k := AfterLastSeparator(s[..|s| - 1], sep);
      assert s[k..] == s[..|s| - 1][k..] + [s[|s| - 1]];
      k
  }

  /** `s.split(sep).pop()`: the text after the last `sep`, or all of `s` when it
      has none. It is a separator-free suffix, preceded by the separator unless
      it is the whole text. */
  function LastPiece(s: string, sep: char): (r: string)
    ensures sep !in r
  {
    s[AfterLastSeparator(s, sep)..]
  }

  /** The last piece is a suffix of the text, preceded by the separator unless it is the whole text. */
  lemma LastPieceShape(s: string, sep: char)
    ensures |LastPiece(s, sep)| <= |s| && LastPiece(s, sep) == s[|s| - |LastPiece(s, sep)|..]
    ensures |LastPiece(s, sep)| < |s| ==> s[|s| - |LastPiece(s, sep)| - 1] == sep
  {
    var k := AfterLastSeparator(s, sep);
    assert |s| - |LastPiece(s, sep)| == k;
  }

  /** The last piece of `p + [sep] + e` is `e` whenever `e` is free of the separator. */
  lemma LastPieceAfterSeparator(p: string, e: string, sep: char)
    requires sep !in e
    ensures LastPiece(p + [sep] + e, sep) == e
  {
    var s := p + [sep] + e;
    var k := AfterLastSeparator(s, sep);
    assert forall i :: k <= i < |s| ==> s[i] == s[k..][i - k];
    assert forall i :: |p| < i < |s| ==> s[i] == e[i - |p| - 1];
    assert s[|p|] == sep;
    assert k == |p| + 1;
    assert s[k..] == e;
  }

  /** A character other than the separator is in a join only if it is in one of the parts. */
  lemma {:induction false} JoinExcludes(parts: seq<string>, sep: char, c: char)
    requires c != sep
    requires forall i :: 0 <= i < |parts| ==> c !in parts[i]
    ensures c !in Join(parts, sep)
  {
    if |parts| > 1 {
      JoinExcludes(parts[1..], sep, c);
    }
  }
}

/**
 * The chat events of a match and the two JavaScript string operations the
 * pipeline applies to their keys: `String.prototype.trim` and
 * `String.prototype.slice` with JavaScript's relative indices. Keys are
 * sequences of Unicode scalar values; `slice` and `length` work on their
 * UTF-16 code units, as JavaScript strings do.
 */
module Events {

  /** `msg.type`: free text (`'chat'`) or a chat-wheel voice line (`'chatwheel'`). */
  datatype Kind = Chat | ChatWheel

  /**
   * One raw chat event. `key` is the message text for `Chat` and the
   * voice-line id, written as text, for `ChatWheel`; `spam` is the flag the
   * detector may set.
   */
  datatype Event = Event(slot: int, time: int, kind: Kind, key: string, spam: bool)

  /** The Zs (space separator) characters besides U+0020 and U+00A0. */
  predicate IsOtherSpaceSeparator(c: char) {
    c == '\U{1680}' || ('\U{2000}' <= c <= '\U{200A}') || c == '\U{202F}' || c == '\U{205F}' || c == '\U{3000}'
  }

  /**
   * The characters `trim` strips: WhiteSpace (TAB, VT, FF, SP, NBSP, ZWNBSP
   * and the Zs category) and LineTerminator (LF, CR, LS, PS), as in sections
   * 11.2 and 11.3 of ECMAScript 2019.
   */
  predicate IsWhiteSpace(c: char) {
    || c == '\t' || c == '\U{0B}' || c == '\U{0C}' || c == ' ' || c == '\U{A0}' || c == '\U{FEFF}'
    || c == '\n' || c == '\r' || c == '\U{2028}' || c == '\U{2029}'
    || IsOtherSpaceSeparator(c)
  }

  /** `s` with its leading white space removed. */
  function TrimStart(s: string): string {
    if |s| > 0 && IsWhiteSpace(s[0]) then TrimStart(s[1..]) else s
  }

  /** `s` with its trailing white space removed. */
  function TrimEnd(s: string): string {
    if |s| > 0 && IsWhiteSpace(s[|s| - 1]) then TrimEnd(s[..|s| - 1]) else s
  }

  /**
   * `String.prototype.trim`: white space cut from both ends. Its properties
   * are the lemmas below rather than postconditions, so that reasoning about
   * the scan, which trims keys, does not unfold them at every use.
   */
  function Trim(s: string): string {
    TrimEnd(TrimStart(s))
  }

  /** `TrimStart` returns a suffix, cuts only white space, and leaves no white space at the start. */
  lemma {:induction false} TrimStartShape(s: string)
    ensures var r := TrimStart(s);
      && |r| <= |s| && r == s[|s| - |r|..]
      && (forall i :: 0 <= i < |s| - |r| ==> IsWhiteSpace(s[i]))
      && (|r| > 0 ==> !IsWhiteSpace(r[0]))
  {
    if |s| > 0 && IsWhiteSpace(s[0]) {
      TrimStartShape(s[1..]);
    }
  }

  /** `TrimEnd` returns a prefix, cuts only white space, and leaves no white space at the end. */
  lemma {:induction false} TrimEndShape(s: string)
    ensures var r := TrimEnd(s);
      && |r| <= |s| && r == s[..|r|]
      && (forall i :: |r| <= i < |s| ==> IsWhiteSpace(s[i]))
      && (|r| > 0 ==> !IsWhiteSpace(r[|r| - 1]))
  {
    if |s| > 0 && IsWhiteSpace(s[|s| - 1]) {
      TrimEndShape(s[..|s| - 1]);
    }
  }

  /** `r` is the infix of `s` at `lo`, and only white space lies outside it. */
  ghost predicate CutsOnlyWhiteSpace(s: string, lo: int, r: string) {
    && 0 <= lo && lo + |r| <= |s| && r == s[lo..lo + |r|]
    && (forall i :: 0 <= i < lo ==> IsWhiteSpace(s[i]))
    && (forall i :: lo + |r| <= i < |s| ==> IsWhiteSpace(s[i]))
  }

  /**
   * The trim of `s` is an infix of `s` with only white space outside it, and
   * it neither starts nor ends with white space.
   */
  lemma TrimShape(s: string)
    ensures exists lo :: CutsOnlyWhiteSpace(s, lo, Trim(s))
    ensures var r := Trim(s); |r| > 0 ==> !IsWhiteSpace(r[0]) && !IsWhiteSpace(r[|r| - 1])
  {
    var t := TrimStart(s);
    var r := TrimEnd(t);
    TrimStartShape(s);
    TrimEndShape(t);
    var lo := |s| - |t|;
    assert r == s[lo..lo + |r|] by {
      assert t == s[lo..];
      assert r == t[..|r|];
    }
    forall i | lo + |r| <= i < |s|
      ensures IsWhiteSpace(s[i])
    {
      assert s[i] == t[i - lo];
    }
    assert Trim(s) == r;
    assert CutsOnlyWhiteSpace(s, lo, Trim(s));
  }

  /** Trimming a trimmed key changes nothing, so the scan may trim a key twice. */
  lemma TrimIdempotent(s: string)
    ensures Trim(Trim(s)) == Trim(s)
  {
    TrimShape(s);
    TrimOfTrimmed(Trim(s));
  }

  /** A string without white space at either end is its own trim. */
  lemma TrimOfTrimmed(s: string)
    requires |s| > 0 ==> !IsWhiteSpace(s[0]) && !IsWhiteSpace(s[|s| - 1])
    ensures Trim(s) == s
  {
    assert TrimStart(s) == s;
    assert TrimEnd(s) == s;
  }

  /** A string made only of white space trims to the empty string. */
  lemma {:induction false} TrimAllWhiteSpace(s: string)
    requires forall i :: 0 <= i < |s| ==> IsWhiteSpace(s[i])
    ensures Trim(s) == []
  {
    if |s| > 0 {
      assert TrimStart(s) == TrimStart(s[1..]);
      TrimAllWhiteSpace(s[1..]);
    }
  }

  /** Leading white space is all that `TrimStart` removes. */
  lemma {:induction false} TrimStartCutsPadding(pre: string, w: string)
    requires forall i :: 0 <= i < |pre| ==> IsWhiteSpace(pre[i])
    requires |w| > 0 ==> !IsWhiteSpace(w[0])
    ensures TrimStart(pre + w) == w
  {
    if |pre| > 0 {
      assert (pre + w)[1..] == pre[1..] + w;
      TrimStartCutsPadding(pre[1..], w);
    } else {
      assert pre + w == w;
    }
  }

  /** Trailing white space is all that `TrimEnd` removes. */
  lemma {:induction false} TrimEndCutsPadding(w: string, post: string)
    requires forall i :: 0 <= i < |post| ==> IsWhiteSpace(post[i])
    requires |w| > 0 ==> !IsWhiteSpace(w[|w| - 1])
    ensures TrimEnd(w + post) == w
  {
    if |post| > 0 {
      assert (w + post)[..|w + post| - 1] == w + post[..|post| - 1];
      TrimEndCutsPadding(w, post[..|post| - 1]);
    } else {
      assert w + post == w;
    }
  }

  /** Padding a key with white space on either side does not change its trim. */
  lemma TrimCutsPadding(pre: string, w: string, post: string)
    requires forall i :: 0 <= i < |pre| ==> IsWhiteSpace(pre[i])
    requires forall i :: 0 <= i < |post| ==> IsWhiteSpace(post[i])
    requires |w| > 0 ==> !IsWhiteSpace(w[0]) && !IsWhiteSpace(w[|w| - 1])
    ensures Trim(pre + w + post) == w
  {
    if |w| > 0 {
      assert (w + post)[0] == w[0];
      TrimStartCutsPadding(pre, w + post);
      assert pre + w + post == pre + (w + post);
      TrimEndCutsPadding(w, post);
    } else {
      assert pre + w + post == pre + post;
      TrimAllWhiteSpace(pre + post);
    }
  }

  /**
   * The UTF-16 code units JavaScript stores for `c` (section 6.1.4 of
   * ECMAScript 2019): the code point itself below U+10000, otherwise a high
   * surrogate followed by a low surrogate.
   */
  function CodeUnits(c: char): seq<int> {
    var v := c as int;
    if v < 0x1_0000 then [v]
    else [0xD800 + (v - 0x1_0000) / 0x400, 0xDC00 + (v - 0x1_0000) % 0x400]
  }

  /** A character outside the Basic Multilingual Plane becomes a surrogate pair that decodes back to it. */
  lemma CodeUnitsRoundTrip(c: char)
    ensures var u := CodeUnits(c);
      if c as int < 0x1_0000 then u == [c as int]
      else
        && |u| == 2
        && 0xD800 <= u[0] < 0xDC00 <= u[1] < 0xE000
        && 0x1_0000 + (u[0] - 0xD800) * 0x400 + (u[1] - 0xDC00) == c as int
  {
  }

  /** The string as JavaScript sees it: its sequence of UTF-16 code units. */
  function Utf16(s: string): seq<int> {
    if s == [] then [] else CodeUnits(s[0]) + Utf16(s[1..])
  }

  /**
   * Two strings with the same code units are the same string, so `===`, which
   * compares code units, is equality of the keys as modelled here.
   */
  lemma {:induction false} Utf16Injective(a: string, b: string)
    requires Utf16(a) == Utf16(b)
    ensures a == b
  {
    if a != [] && b != [] {
      var u, v := CodeUnits(a[0]), CodeUnits(b[0]);
      CodeUnitsRoundTrip(a[0]);
      CodeUnitsRoundTrip(b[0]);
      assert u[0] == Utf16(a)[0] == Utf16(b)[0] == v[0];
      assert !(0xD800 <= a[0] as int < 0xE000) && !(0xD800 <= b[0] as int < 0xE000);
      assert |u| == |v|;
      assert u == Utf16(a)[..|u|] && v == Utf16(b)[..|v|];
      assert Utf16(a[1..]) == Utf16(a)[|u|..] && Utf16(b[1..]) == Utf16(b)[|v|..];
      Utf16Injective(a[1..], b[1..]);
      assert a == [a[0]] + a[1..] && b == [b[0]] + b[1..];
    }
  }

  /** Every character of `s` lies in the Basic Multilingual Plane. */
  predicate InBmp(s: string) {
    forall i :: 0 <= i < |s| ==> s[i] as int < 0x1_0000
  }

  /** In the Basic Multilingual Plane each character is one code unit. */
  lemma {:induction false} Utf16OfBmp(s: string)
    requires InBmp(s)
    ensures |Utf16(s)| == |s|
    ensures forall i :: 0 <= i < |s| ==> Utf16(s)[i] == s[i] as int
  {
    if s != [] {
      Utf16OfBmp(s[1..]);
      assert forall i :: 1 <= i < |s| ==> Utf16(s)[i] == Utf16(s[1..])[i - 1];
    }
  }

  /**
   * A JavaScript relative index into a string of `len` code units: a
   * negative one counts from the end; either end clamps into `0..len`.
   */
  function RelativeIndex(len: nat, index: int): (p: nat)
    ensures p <= len
  {
    if index < 0 then (if len + index > 0 then len + index else 0)
    else if index < len then index else len
  }

  /** An index `k` from the start is position `k`; `-k` is `k` from the end (`-0` is the start); both clamp at the ends. */
  lemma RelativeIndexMeaning(len: nat, k: int)
    ensures 0 <= k <= len ==> RelativeIndex(len, k) == k
    ensures 0 < k <= len ==> RelativeIndex(len, -k) == len - k
    ensures k > len ==> RelativeIndex(len, k) == len && RelativeIndex(len, -k) == 0
  {
  }

  /** `u.slice(start, end)` on code units: the units from `start` up to `end`, empty when they cross. */
  function Slice(u: seq<int>, start: int, end: int): seq<int> {
    var from, to := RelativeIndex(|u|, start), RelativeIndex(|u|, end);
    if from < to then u[from..to] else []
  }

  /** `s.slice(0, 2)`, as code units. */
  function FirstTwo(s: string): seq<int> {
    Slice(Utf16(s), 0, 2)
  }

  /** `s.slice(-2)`, as code units: `end` defaults to `s.length`. */
  function LastTwo(s: string): seq<int> {
    var u := Utf16(s);
    Slice(u, -2, |u|)
  }

  /** On a key of at least two code units the slices are its first and last two code units. */
  lemma EndsOfLongString(s: string)
    requires |Utf16(s)| >= 2
    ensures FirstTwo(s) == Utf16(s)[..2]
    ensures LastTwo(s) == Utf16(s)[|Utf16(s)| - 2..]
  {
  }

  /** On a key shorter than two code units both slices are the whole key: it compares whole. */
  lemma EndsOfShortString(s: string)
    requires |Utf16(s)| < 2
    ensures FirstTwo(s) == Utf16(s) && LastTwo(s) == Utf16(s)
  {
  }

  /** The code units of a concatenation are the concatenated code units. */
  lemma {:induction false} Utf16Concat(a: string, b: string)
    ensures Utf16(a + b) == Utf16(a) + Utf16(b)
  {
    if a != [] {
      assert (a + b)[1..] == a[1..] + b;
      Utf16Concat(a[1..], b);
    } else {
      assert a + b == b;
    }
  }

  /**
   * When a key's first two and last two characters lie in the Basic
   * Multilingual Plane the slices are those characters.
   */
  lemma EndsOfBmpString(s: string)
    requires |s| >= 2
    requires s[0] as int < 0x1_0000 && s[1] as int < 0x1_0000
    requires s[|s| - 2] as int < 0x1_0000 && s[|s| - 1] as int < 0x1_0000
    ensures FirstTwo(s) == [s[0] as int, s[1] as int]
    ensures LastTwo(s) == [s[|s| - 2] as int, s[|s| - 1] as int]
  {
    var n := |s|;
    var head, tail := s[..2], s[n - 2..];
    Utf16OfBmp(head);
    Utf16OfBmp(tail);
    Utf16Concat(head, s[2..]);
    assert s == head + s[2..];
    Utf16Concat(s[..n - 2], tail);
    assert s == s[..n - 2] + tail;
    EndsOfLongString(s);
  }
}

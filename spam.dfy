/**
 * The spam detector: one forward pass over the raw events that compares each
 * event with its immediate predecessor only. `Step` is one iteration of the
 * loop, `ScanUpTo` the first `n` iterations and `Detect` the whole pass;
 * `DetectSpam` runs the pass in place on the array. The lemmas describe the
 * result in terms of the ORIGINAL events.
 */
module SpamDetector {
  import opened Events

  /** Repeats closer together than this many seconds are spam. */
  const RepeatWindow: int := 10

  /** Events `j` and `j + 1` exist and come from the same player slot. */
  predicate SameSlotPair(s: seq<Event>, j: int) {
    0 <= j && j + 1 < |s| && s[j].slot == s[j + 1].slot
  }

  /** Events `j` and `j + 1` are text chat from the same slot: the pairs whose keys the scan trims. */
  predicate ChatPair(s: seq<Event>, j: int) {
    SameSlotPair(s, j) && s[j].kind == Chat && s[j + 1].kind == Chat
  }

  /** The fuzzy comparison: the first two and the last two UTF-16 code units agree. */
  predicate SameEnds(a: string, b: string) {
    FirstTwo(a) == FirstTwo(b) && LastTwo(a) == LastTwo(b)
  }

  /**
   * One iteration of the loop body for a same-slot pair: the new `curr` and
   * `next`. The repeat test reads the keys before this pair's trim.
   */
  function PairStep(curr: Event, next: Event): (Event, Event) {
    var next1 := if next.time - curr.time < RepeatWindow && curr.key == next.key
                 then next.(spam := true) else next;
    if curr.kind == Chat && next.kind == Chat then
      var c := curr.(key := Trim(curr.key));
      var n := next1.(key := Trim(next1.key));
      (c, if SameEnds(c.key, n.key) then n.(spam := true) else n)
    else (curr, next1)
  }

  /** One iteration of the loop, for the pair `curr = s[i]`, `next = s[i + 1]`. */
  function Step(s: seq<Event>, i: nat): (r: seq<Event>)
    requires i + 1 < |s|
    ensures |r| == |s|
  {
    if s[i].slot != s[i + 1].slot then s
    else
      var (c, n) := PairStep(s[i], s[i + 1]);
      s[i := c][i + 1 := n]
  }

  /** The events after the first `n` iterations of the loop. */
  function ScanUpTo(s: seq<Event>, n: nat): (r: seq<Event>)
    requires n == 0 || n < |s|
    ensures |r| == |s|
  {
    if n == 0 then s else Step(ScanUpTo(s, n - 1), n - 1)
  }

  /** The number of iterations: one per adjacent pair. */
  function PairCount(s: seq<Event>): nat {
    if |s| == 0 then 0 else |s| - 1
  }

  /** The events after the whole pass. */
  function Detect(s: seq<Event>): (r: seq<Event>)
    ensures |r| == |s|
  {
    ScanUpTo(s, PairCount(s))
  }

  /**
   * The key event `j` holds when the pair `(j, j + 1)` is examined: already
   * trimmed if the previous pair was a same-slot chat pair.
   */
  function KeyWhenCompared(s: seq<Event>, j: nat): string
    requires j < |s|
  {
    if ChatPair(s, j - 1) then Trim(s[j].key) else s[j].key
  }

  /** The repeat rule fires for event `k`: same slot, less than ten seconds, identical keys. */
  predicate RepeatFires(s: seq<Event>, k: int) {
    && SameSlotPair(s, k - 1)
    && s[k].time - s[k - 1].time < RepeatWindow
    && KeyWhenCompared(s, k - 1) == s[k].key
  }

  /** The fuzzy rule fires for event `k`: a same-slot chat pair whose trimmed keys share their ends. */
  predicate FuzzyFires(s: seq<Event>, k: int) {
    ChatPair(s, k - 1) && SameEnds(Trim(s[k - 1].key), Trim(s[k].key))
  }

  /** Some rule flags event `k` as spam. */
  predicate RuleFires(s: seq<Event>, k: int) {
    RepeatFires(s, k) || FuzzyFires(s, k)
  }

  /** Event `k` takes part in a same-slot chat pair, on either side, so its key is trimmed. */
  predicate KeyTrimmed(s: seq<Event>, k: int) {
    ChatPair(s, k - 1) || ChatPair(s, k)
  }

  /** One step leaves every event outside its pair as it was. */
  lemma StepElsewhere(s: seq<Event>, i: nat, k: nat)
    requires i + 1 < |s| && k < |s| && k != i && k != i + 1
    ensures Step(s, i)[k] == s[k]
  {
  }

  /** One step changes only the key of `curr`, trimming it when the pair is a same-slot chat pair. */
  lemma StepCurr(s: seq<Event>, i: nat)
    requires i + 1 < |s|
    ensures Step(s, i)[i] == s[i].(key := if ChatPair(s, i) then Trim(s[i].key) else s[i].key)
  {
  }

  /**
   * One step flags `next` when the repeat test on the untrimmed keys or the
   * fuzzy test on the trimmed keys succeeds, and trims its key in a chat pair.
   */
  lemma StepNext(s: seq<Event>, i: nat)
    requires i + 1 < |s|
    ensures Step(s, i)[i + 1] == s[i + 1].(
      spam := || s[i + 1].spam
              || (SameSlotPair(s, i) && s[i + 1].time - s[i].time < RepeatWindow && s[i].key == s[i + 1].key)
              || (ChatPair(s, i) && SameEnds(Trim(s[i].key), Trim(s[i + 1].key))),
      key := if ChatPair(s, i) then Trim(s[i + 1].key) else s[i + 1].key)
  {
  }

  /**
   * Event `k` as the first `n` iterations leave it: slot, time and kind as
   * they were; the flag is the old flag or a rule that fired for a pair
   * already examined; the key is trimmed exactly when the event sits in an
   * examined same-slot chat pair.
   */
  function Scanned(s: seq<Event>, n: nat, k: nat): Event
    requires k < |s|
  {
    s[k].(
      spam := s[k].spam || (k <= n && RuleFires(s, k)),
      key := if (k <= n && ChatPair(s, k - 1)) || (k < n && ChatPair(s, k)) then Trim(s[k].key) else s[k].key)
  }

  /** The first `n` iterations, index by index, in terms of the original events. */
  lemma {:induction false} ScanUpToAt(s: seq<Event>, n: nat, k: nat)
    requires n == 0 || n < |s|
    requires k < |s|
    ensures ScanUpTo(s, n)[k] == Scanned(s, n, k)
    decreases n
  {
    if n > 0 {
      var i := n - 1;
      var t := ScanUpTo(s, i);
      assert ScanUpTo(s, n) == Step(t, i);
      ScanUpToAt(s, i, k);
      if k == i {
        ScanUpToAt(s, i, i + 1);
        ScanCurr(s, t, i);
      } else if k == i + 1 {
        ScanUpToAt(s, i, i);
        ScanNext(s, t, i);
      } else {
        ScanElsewhere(s, t, i, k);
      }
    }
  }

  /** Iteration `i` leaves events outside its pair as the earlier iterations left them. */
  lemma ScanElsewhere(s: seq<Event>, t: seq<Event>, i: nat, k: nat)
    requires i + 1 < |s| == |t| && k < |s| && k != i && k != i + 1
    requires t[k] == Scanned(s, i, k)
    ensures Step(t, i)[k] == Scanned(s, i + 1, k)
  {
    StepElsewhere(t, i, k);
  }

  /** Iteration `i` finishes `curr`. */
  lemma ScanCurr(s: seq<Event>, t: seq<Event>, i: nat)
    requires i + 1 < |s| == |t|
    requires t[i] == Scanned(s, i, i) && t[i + 1] == Scanned(s, i, i + 1)
    ensures Step(t, i)[i] == Scanned(s, i + 1, i)
  {
    CurrStepAt(s, t, i);
  }

  /** Iteration `i` sets `next` as the rules on the original events say. */
  lemma ScanNext(s: seq<Event>, t: seq<Event>, i: nat)
    requires i + 1 < |s| == |t|
    requires t[i] == Scanned(s, i, i) && t[i + 1] == Scanned(s, i, i + 1)
    ensures Step(t, i)[i + 1] == Scanned(s, i + 1, i + 1)
  {
    NextStepAt(s, t, i);
  }

  /** The step for pair `(i, i + 1)` leaves `curr` with its key trimmed once more in a chat pair. */
  lemma CurrStepAt(s: seq<Event>, t: seq<Event>, i: nat)
    requires i + 1 < |s| == |t|
    requires t[i].slot == s[i].slot && t[i].time == s[i].time && t[i].kind == s[i].kind
    requires t[i].key == KeyWhenCompared(s, i)
    requires t[i + 1] == s[i + 1]
    ensures Step(t, i)[i] == t[i].(key := if ChatPair(s, i) then Trim(s[i].key) else KeyWhenCompared(s, i))
  {
    StepCurr(t, i);
    assert ChatPair(t, i) == ChatPair(s, i);
    if ChatPair(s, i) {
      TrimIdempotent(s[i].key);
    }
  }

  /** The step for pair `(i, i + 1)` sees the original `next` and the predecessor key `KeyWhenCompared`. */
  lemma NextStepAt(s: seq<Event>, t: seq<Event>, i: nat)
    requires i + 1 < |s| == |t|
    requires t[i].slot == s[i].slot && t[i].time == s[i].time && t[i].kind == s[i].kind
    requires t[i].key == KeyWhenCompared(s, i)
    requires t[i + 1] == s[i + 1]
    ensures Step(t, i)[i + 1] == s[i + 1].(
      spam := s[i + 1].spam || RuleFires(s, i + 1),
      key := if ChatPair(s, i) then Trim(s[i + 1].key) else s[i + 1].key)
  {
    StepNext(t, i);
    assert SameSlotPair(t, i) == SameSlotPair(s, i);
    assert ChatPair(t, i) == ChatPair(s, i);
    assert RepeatFires(s, i + 1) ==
      (SameSlotPair(t, i) && t[i + 1].time - t[i].time < RepeatWindow && t[i].key == t[i + 1].key);
    if ChatPair(s, i) {
      TrimIdempotent(s[i].key);
      assert Trim(t[i].key) == Trim(s[i].key);
    }
    assert FuzzyFires(s, i + 1) == (ChatPair(t, i) && SameEnds(Trim(t[i].key), Trim(t[i + 1].key)));
  }

  /** Detection keeps every event's slot, time and kind, and the number of events. */
  lemma DetectKeepsIdentity(s: seq<Event>, k: nat)
    requires k < |s|
    ensures |Detect(s)| == |s|
    ensures Detect(s)[k].slot == s[k].slot && Detect(s)[k].time == s[k].time && Detect(s)[k].kind == s[k].kind
  {
    ScanUpToAt(s, PairCount(s), k);
  }

  /** After detection, event `k` is spam exactly when it was already, or a rule fired for it against its predecessor. */
  lemma DetectSpamExactly(s: seq<Event>, k: nat)
    requires k < |s|
    ensures Detect(s)[k].spam <==> s[k].spam || RuleFires(s, k)
  {
    ScanUpToAt(s, PairCount(s), k);
  }

  /** After detection, event `k`'s key is trimmed exactly when it sits in a same-slot chat pair. */
  lemma DetectKeyExactly(s: seq<Event>, k: nat)
    requires k < |s|
    ensures Detect(s)[k].key == if KeyTrimmed(s, k) then Trim(s[k].key) else s[k].key
  {
    ScanUpToAt(s, PairCount(s), k);
  }

  /** The scan never touches the flag of the first event: it has no predecessor. */
  lemma FirstNeverFlagged(s: seq<Event>)
    requires |s| > 0
    ensures Detect(s)[0].spam == s[0].spam
  {
    DetectSpamExactly(s, 0);
  }

  /** A flag the scan sets belongs to an event whose predecessor has the same slot. */
  lemma FlagNeedsSameSlotPredecessor(s: seq<Event>, k: nat)
    requires k < |s|
    requires Detect(s)[k].spam && !s[k].spam
    ensures k > 0 && s[k - 1].slot == s[k].slot
  {
    DetectSpamExactly(s, k);
  }

  /** The scan never sets a flag back to false. */
  lemma NeverClears(s: seq<Event>, k: nat)
    requires k < |s| && s[k].spam
    ensures Detect(s)[k].spam
  {
    DetectSpamExactly(s, k);
  }

  /**
   * Repeat rule: a same-slot repeat within ten seconds is flagged, comparing
   * the predecessor's key as the previous iteration left it.
   */
  lemma RepeatIsFlagged(s: seq<Event>, k: nat)
    requires 0 < k < |s|
    requires s[k - 1].slot == s[k].slot
    requires s[k].time - s[k - 1].time < 10
    requires KeyWhenCompared(s, k - 1) == s[k].key
    ensures Detect(s)[k].spam
  {
    DetectSpamExactly(s, k);
  }

  /** Fuzzy rule: a same-slot chat pair whose trimmed keys share their first and last two code units is flagged, whatever the gap. */
  lemma FuzzyIsFlagged(s: seq<Event>, k: nat)
    requires 0 < k < |s|
    requires s[k - 1].slot == s[k].slot && s[k - 1].kind == Chat && s[k].kind == Chat
    requires SameEnds(Trim(s[k - 1].key), Trim(s[k].key))
    ensures Detect(s)[k].spam
  {
    DetectSpamExactly(s, k);
  }

  /** Keys of events outside same-slot chat pairs are left as they were. */
  lemma OtherKeysUnchanged(s: seq<Event>, k: nat)
    requires k < |s|
    requires !KeyTrimmed(s, k)
    ensures Detect(s)[k].key == s[k].key
  {
    DetectKeyExactly(s, k);
  }

  /**
   * "gg" followed two seconds later by "gg ": the repeat rule misses on the
   * untrimmed keys, the fuzzy rule flags the second message.
   */
  lemma TrailingSpaceRepeatIsFlagged()
    ensures var s := [Event(0, 1, Chat, "gg", false), Event(0, 3, Chat, "gg ", false)];
            !RepeatFires(s, 1) && Detect(s)[1].spam
  {
    var s := [Event(0, 1, Chat, "gg", false), Event(0, 3, Chat, "gg ", false)];
    TrimCutsPadding("", "gg", " ");
    assert "" + "gg" + " " == "gg ";
    TrimOfTrimmed("gg");
    DetectSpamExactly(s, 1);
  }

  /** Two templated messages 49 seconds apart are flagged by the fuzzy rule alone. */
  lemma TemplatedMessagesAreFlagged(s: seq<Event>, a: string, b: string)
    requires a == "hello there friend" && b == "hello random friend"
    requires s == [Event(0, 1, Chat, a, false), Event(0, 50, Chat, b, false)]
    ensures !RepeatFires(s, 1) && FuzzyFires(s, 1) && Detect(s)[1].spam
  {
    TrimOfTrimmed(a);
    TrimOfTrimmed(b);
    EndsOfBmpString(a);
    EndsOfBmpString(b);
    DetectSpamExactly(s, 1);
  }

  /**
   * `slice` counts UTF-16 code units: an emoji fills both units of
   * `slice(0, 2)`, so two keys that differ in their second character still
   * match there, and the fuzzy rule flags the second.
   */
  lemma SurrogatePairFillsFirstTwo()
    ensures var s := [Event(0, 0, Chat, "\U{1F600}a!!", false), Event(0, 50, Chat, "\U{1F600}b!!", false)];
            s[0].key[..2] != s[1].key[..2] && FuzzyFires(s, 1) && Detect(s)[1].spam
  {
    var s := [Event(0, 0, Chat, "\U{1F600}a!!", false), Event(0, 50, Chat, "\U{1F600}b!!", false)];
    TrimOfTrimmed(s[0].key);
    TrimOfTrimmed(s[1].key);
    assert Utf16(s[0].key) == [0xD83D, 0xDE00, 'a' as int, '!' as int, '!' as int];
    assert Utf16(s[1].key) == [0xD83D, 0xDE00, 'b' as int, '!' as int, '!' as int];
    EndsOfLongString(s[0].key);
    EndsOfLongString(s[1].key);
    DetectSpamExactly(s, 1);
  }

  /**
   * Two different emoji from the same block share their high surrogate, so
   * keys that differ only there match in the first two code units.
   */
  lemma SharedHighSurrogateMatches()
    ensures var s := [Event(0, 0, Chat, "a\U{1F600}xx", false), Event(0, 50, Chat, "a\U{1F601}xx", false)];
            s[0].key != s[1].key && FuzzyFires(s, 1) && Detect(s)[1].spam
  {
    var s := [Event(0, 0, Chat, "a\U{1F600}xx", false), Event(0, 50, Chat, "a\U{1F601}xx", false)];
    TrimOfTrimmed(s[0].key);
    TrimOfTrimmed(s[1].key);
    assert Utf16(s[0].key) == ['a' as int, 0xD83D, 0xDE00, 'x' as int, 'x' as int];
    assert Utf16(s[1].key) == ['a' as int, 0xD83D, 0xDE01, 'x' as int, 'x' as int];
    EndsOfLongString(s[0].key);
    EndsOfLongString(s[1].key);
    DetectSpamExactly(s, 1);
  }

  /**
   * Only neighbours are compared: a message that repeats the one two events
   * back, with a chat-wheel line between, is not flagged.
   */
  lemma OnlyNeighboursCompared()
    ensures var s := [Event(0, 0, Chat, "hello", false), Event(0, 1, ChatWheel, "5", false), Event(0, 2, Chat, "hello", false)];
            !Detect(s)[1].spam && !Detect(s)[2].spam
  {
    var s := [Event(0, 0, Chat, "hello", false), Event(0, 1, ChatWheel, "5", false), Event(0, 2, Chat, "hello", false)];
    DetectSpamExactly(s, 1);
    DetectSpamExactly(s, 2);
  }

  /** Running the pass again over its own output trims no further key. */
  lemma RerunKeepsKeys(s: seq<Event>, k: nat)
    requires k < |s|
    ensures Detect(Detect(s))[k].key == Detect(s)[k].key
  {
    var d := Detect(s);
    DetectKeyExactly(s, k);
    DetectKeyExactly(d, k);
    DetectKeepsIdentity(s, k);
    if k > 0 {
      DetectKeepsIdentity(s, k - 1);
    }
    if k + 1 < |s| {
      DetectKeepsIdentity(s, k + 1);
    }
    assert KeyTrimmed(d, k) == KeyTrimmed(s, k);
    TrimIdempotent(s[k].key);
  }

  /**
   * Running the pass again over its own output can flag more events: a
   * chat-wheel line `w`, then, from the same slot within ten seconds, the chat
   * message " " + w and any further chat message. The first pass sees " " + w
   * as different from `w` and only then trims it, in the pair (1, 2); the
   * second pass sees a repeat of `w`.
   */
  lemma RerunCanAddFlag(s: seq<Event>, w: string, u: string)
    requires |w| > 0 && !IsWhiteSpace(w[0]) && !IsWhiteSpace(w[|w| - 1])
    requires s == [Event(0, 0, ChatWheel, w, false), Event(0, 1, Chat, " " + w, false), Event(0, 2, Chat, u, false)]
    ensures !Detect(s)[1].spam && Detect(Detect(s))[1].spam
  {
    DetectSpamExactly(s, 1);
    assert s[0].key != s[1].key by {
      assert |s[1].key| == |w| + 1;
    }
    DetectKeepsIdentity(s, 0);
    DetectKeepsIdentity(s, 1);
    DetectKeyExactly(s, 0);
    DetectKeyExactly(s, 1);
    TrimCutsPadding(" ", w, "");
    assert " " + w + "" == " " + w;
    var d := Detect(s);
    assert d[0].key == w == d[1].key;
    assert KeyWhenCompared(d, 0) == d[0].key;
    RepeatIsFlagged(d, 1);
  }

  /**
   * The loop body for the pair at `i`. `curr` and `next` stand for the two
   * event objects: they are updated field by field and both written back.
   */
  method ExaminePair(a: array<Event>, i: nat)
    requires i + 1 < a.Length
    modifies a
    ensures a[..] == Step(old(a[..]), i)
  {
    var curr, next := a[i], a[i + 1];
    if curr.slot == next.slot {
      if next.time - curr.time < RepeatWindow {
        if curr.key == next.key {
          next := next.(spam := true);
        }
      }
      if curr.kind == Chat && next.kind == Chat {
        curr := curr.(key := Trim(curr.key));
        next := next.(key := Trim(next.key));
        if FirstTwo(curr.key) == FirstTwo(next.key) && LastTwo(curr.key) == LastTwo(next.key) {
          next := next.(spam := true);
        }
      }
      a[i], a[i + 1] := curr, next;
    }
  }

  /** The pass in place on `a`: the loop of the constructor. */
  method DetectSpam(a: array<Event>)
    modifies a
    ensures a[..] == Detect(old(a[..]))
  {
    ghost var s := a[..];
    var i := 0;
    while i + 1 < a.Length
      invariant i == 0 || i < a.Length
      invariant a[..] == ScanUpTo(s, i)
    {
      ExaminePair(a, i);
      i := i + 1;
    }
  }
}

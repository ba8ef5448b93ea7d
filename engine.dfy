/**
 * The chat component's state: the raw events (flagged once, in place, by
 * the constructor), the five toggles and the current view, a list of raw
 * indices in display order.
 */
module Engine {
  import opened Wrappers
  import opened Events
  import opened SpamDetector
  import opened FilterSet
  import opened Sorter

  /** `m.indexOf(x)`: the first position of `x`, or -1. */
  method IndexOf(m: seq<nat>, x: nat) returns (index: int)
    ensures -1 <= index < |m|
    ensures index < 0 <==> x !in m
    ensures 0 <= index ==> m[index] == x && x !in m[..index]
  {
    index := 0;
    while index < |m|
      invariant 0 <= index <= |m|
      invariant x !in m[..index]
    {
      if m[index] == x {
        return;
      }
      assert m[..index + 1] == m[..index] + [m[index]];
      index := index + 1;
    }
    assert m[..index] == m;
    index := -1;
  }

  /** `m.splice(index, 1)` on a list without repeats removes the element there and nothing else. */
  lemma SpliceRemovesOne(m: seq<nat>, index: nat)
    requires Increasing(m) && index < |m|
    ensures Increasing(m[..index] + m[index + 1..])
    ensures forall y :: y in m[..index] + m[index + 1..] <==> y in m && y != m[index]
  {
    var r := m[..index] + m[index + 1..];
    assert forall t :: 0 <= t < |r| ==> r[t] == if t < index then m[t] else m[t + 1];
    forall y
      ensures y in r <==> y in m && y != m[index]
    {
      if y in m && y != m[index] {
        var t :| 0 <= t < |m| && m[t] == y;
        assert r[if t < index then t else t - 1] == y;
      }
    }
  }

  /**
   * The inner loop of the removal: for each event `drop` lists, find it in
   * the working list by identity and splice it out if it is still there.
   */
  method RemoveEach(m: seq<nat>, drop: seq<nat>) returns (r: seq<nat>)
    requires Increasing(m)
    ensures Increasing(r)
    ensures forall y :: y in r <==> y in m && y !in drop
  {
    r := m;
    for j := 0 to |drop|
      invariant Increasing(r)
      invariant forall y :: y in r <==> y in m && y !in drop[..j]
    {
      var index := IndexOf(r, drop[j]);
      if index >= 0 {
        SpliceRemovesOne(r, index);
        r := r[..index] + r[index + 1..];
      }
      assert drop[..j + 1] == drop[..j] + [drop[j]];
    }
    assert drop[..|drop|] == drop;
  }

  /** Event `x` survives the removals for the filters `keys`. */
  predicate SurvivesFilters(raw: seq<Event>, isRadiant: int -> bool, state: Toggles, keys: seq<FilterKey>, x: nat)
    requires x < |raw|
  {
    forall k :: k in keys && !state.Get(k) ==> !Matches(isRadiant, k, raw[x])
  }

  /**
   * The removal half of `filter`: from a copy of the raw events, in raw order,
   * splice out every event matched by a filter whose toggle is off, visiting
   * the filters in key order.
   */
  method RemoveFiltered(raw: seq<Event>, isRadiant: int -> bool, state: Toggles) returns (working: seq<nat>)
    ensures Increasing(working) && IndicesOf(raw, working)
    ensures forall x: nat :: x in working <==> Shown(raw, isRadiant, state, x)
  {
    working := seq(|raw|, i requires 0 <= i => i);
    assert forall x: nat :: x in working <==> x < |raw| by {
      forall x: nat | x < |raw|
        ensures x in working
      {
        assert working[x] == x;
      }
    }
    for t := 0 to |FilterOrder|
      invariant Increasing(working)
      invariant forall x: nat :: x in working <==> x < |raw| && SurvivesFilters(raw, isRadiant, state, FilterOrder[..t], x)
    {
      var k := FilterOrder[t];
      if !state.Get(k) {
        working := RemoveEach(working, Matched(raw, isRadiant, k));
      }
      assert FilterOrder[..t + 1] == FilterOrder[..t] + [k];
    }
    forall x: nat | x < |raw|
      ensures SurvivesFilters(raw, isRadiant, state, FilterOrder[..|FilterOrder|], x) <==> Shown(raw, isRadiant, state, x)
    {
      assert FilterOrder[..|FilterOrder|] == FilterOrder;
      forall k: FilterKey
        ensures k in FilterOrder
      {
        FilterOrderHasEveryKey(k);
      }
    }
    forall i | 0 <= i < |working|
      ensures working[i] < |raw|
    {
      assert working[i] in working;
    }
  }

  class ChatEngine {
    /** `this.raw`: the match's event array itself, not a copy. */
    const raw: array<Event>
    /** The team test on player slots. */
    const isRadiant: int -> bool
    /** The five toggles of `this.state`. */
    var state: Toggles
    /** `this.messages`: the current view as raw indices. */
    var messages: seq<nat>

    /**
     * Keeps the events, flags spam in place in the caller's array and starts
     * from the default toggles. The view is computed by the first `Filter`.
     */
    constructor (data: array<Event>, isRadiant: int -> bool)
      modifies data
      ensures raw == data && this.isRadiant == isRadiant
      ensures data[..] == Detect(old(data[..]))
      ensures state == Defaults && messages == []
    {
      raw := data;
      this.isRadiant := isRadiant;
      state := Defaults;
      messages := [];
      new;
      DetectSpam(data);
    }

    /**
     * `filter(key)`: flips the toggle `key`, if given, then rebuilds the view
     * from a copy of the raw events: removes every event an off filter
     * matches and sorts what is left into display order.
     */
    method Filter(key: Option<FilterKey>)
      modifies this
      ensures state == if key.Some? then old(state).Flip(key.value) else old(state)
      ensures forall i: nat :: i in messages <==> Shown(raw[..], isRadiant, state, i)
      ensures InViewOrder(raw[..], messages)
    {
      if key.Some? {
        state := state.Flip(key.value);
      }
      var working := RemoveFiltered(raw[..], isRadiant, state);
      messages := SortView(raw[..], working);
    }

    /** The count beside toggle `k`: how many raw events its filter matches, whatever the toggles. */
    function CountFor(k: FilterKey): (n: nat)
      reads this, raw
      ensures n == |MatchSet(raw[..], isRadiant, k)|
    {
      CountIsMatchedEvents(raw[..], isRadiant, k);
      MatchCount(raw[..], isRadiant, k)
    }
  }

  /**
   * One spam and two clean events at the same time: slot 0 repeats voice line
   * 7, slot 1 plays it once. The default view shows only the clean events, and
   * once the spam toggle is flipped all three are shown, clean before spam.
   */
  method SpamToggleScenario(isRadiant: int -> bool) returns (before: seq<nat>, after: seq<nat>)
    ensures before == [0, 2]
    ensures after == [0, 2, 1]
  {
    var data := new Event[3];
    data[0] := Event(0, 5, ChatWheel, "7", false);
    data[1] := Event(0, 5, ChatWheel, "7", false);
    data[2] := Event(1, 5, ChatWheel, "7", false);
    var s := data[..];
    var chat := new ChatEngine(data, isRadiant);
    var raw := chat.raw[..];
    assert raw == Detect(s);
    forall k | 0 <= k < 3
      ensures raw[k].time == 5
    {
      DetectKeepsIdentity(s, k);
    }
    FirstNeverFlagged(s);
    RepeatIsFlagged(s, 1);
    if raw[2].spam {
      FlagNeedsSameSlotPredecessor(s, 2);
    }

    chat.Filter(None);
    before := chat.messages;
    forall x: nat
      ensures x in before <==> x in [0, 2]
    {
      if x < 3 {
        DefaultsHideOnlySpam(raw, isRadiant, x);
      }
    }
    ViewOrderUnique(raw, before, [0, 2]);

    chat.Filter(Some(SpamKey));
    after := chat.messages;
    assert chat.state == AllShown;
    forall x: nat
      ensures x in after <==> x in [0, 2, 1]
    {
      if x < 3 {
        AllOnShowsEverything(raw, isRadiant, x);
      }
    }
    ViewOrderUnique(raw, after, [0, 2, 1]);
  }
}

/**
 * The five filters: their toggles, the predicate each one matches against
 * the raw events, the per-filter counts and which events the view shows.
 * `isRadiant` is the team test on player slots; its definition is not part
 * of this model, so it is a parameter throughout.
 */
module FilterSet {
  import opened Events

  /** The keys of `this.filters` and of the toggles in `this.state`. */
  datatype FilterKey = RadiantKey | DireKey | ChatKey | ChatWheelKey | SpamKey

  /** `Object.keys(this.filters)`, in the order the removal loop visits them. */
  const FilterOrder: seq<FilterKey> := [RadiantKey, DireKey, ChatKey, ChatWheelKey, SpamKey]

  /** The five show/hide toggles of `this.state`. */
  datatype Toggles = Toggles(radiant: bool, dire: bool, chat: bool, chatwheel: bool, spam: bool) {

    /** `this.state[key]`. */
    function Get(k: FilterKey): bool {
      match k
      case RadiantKey => radiant
      case DireKey => dire
      case ChatKey => chat
      case ChatWheelKey => chatwheel
      case SpamKey => spam
    }

    /** `this.state[key] = !this.state[key]`: the toggle `k` flips, the other four stay. */
    function Flip(k: FilterKey): (t: Toggles)
      ensures t.Get(k) == !Get(k)
      ensures forall k' :: k' != k ==> t.Get(k') == Get(k')
    {
      match k
      case RadiantKey => this.(radiant := !radiant)
      case DireKey => this.(dire := !dire)
      case ChatKey => this.(chat := !chat)
      case ChatWheelKey => this.(chatwheel := !chatwheel)
      case SpamKey => this.(spam := !spam)
    }
  }

  /** The toggles a view starts with: everything shown except spam. */
  const Defaults: Toggles := Toggles(true, true, true, true, false)

  /** Every toggle on. */
  const AllShown: Toggles := Toggles(true, true, true, true, true)

  /** The predicate of filter `k`, as `this.filters[k]` applies it to one message. */
  predicate Matches(isRadiant: int -> bool, k: FilterKey, e: Event) {
    match k
    case RadiantKey => isRadiant(e.slot)
    case DireKey => !isRadiant(e.slot)
    case ChatKey => e.kind == Chat
    case ChatWheelKey => e.kind == ChatWheel
    case SpamKey => e.spam
  }

  /** The indices `0 <= i < n` of strictly increasing values: raw order, each event at most once. */
  predicate Increasing(m: seq<nat>) {
    forall i, j :: 0 <= i < j < |m| ==> m[i] < m[j]
  }

  /**
   * `this.filters[k]()`: the events of `raw` that filter `k` matches, in raw
   * order, as indices because the removal works by object identity.
   */
  function Matched(raw: seq<Event>, isRadiant: int -> bool, k: FilterKey): (r: seq<nat>)
    ensures forall i: nat :: i in r <==> i < |raw| && Matches(isRadiant, k, raw[i])
    ensures Increasing(r)
  {
    if raw == [] then []
    else
      var n := |raw| - 1;
      var before := Matched(raw[..n], isRadiant, k);
      assert forall i :: 0 <= i < |before| ==> before[i] < n by {
        forall i | 0 <= i < |before|
          ensures before[i] < n
        {
          var x: nat := before[i];
          assert x in before;
        }
      }
      before + if Matches(isRadiant, k, raw[n]) then [n] else []
  }

  /** `this.filters[k]().length`: the count shown beside toggle `k`, whatever the toggles are. */
  function MatchCount(raw: seq<Event>, isRadiant: int -> bool, k: FilterKey): nat {
    |Matched(raw, isRadiant, k)|
  }

  /** The set of events filter `k` matches. */
  ghost function MatchSet(raw: seq<Event>, isRadiant: int -> bool, k: FilterKey): set<nat> {
    set i: nat | i < |raw| && Matches(isRadiant, k, raw[i])
  }

  /** Adding an event to the end adds its index to the matched set exactly when the filter matches it. */
  lemma MatchSetGrows(raw: seq<Event>, isRadiant: int -> bool, k: FilterKey)
    requires raw != []
    ensures var n := |raw| - 1;
      && n !in MatchSet(raw[..n], isRadiant, k)
      && MatchSet(raw, isRadiant, k)
         == MatchSet(raw[..n], isRadiant, k) + if Matches(isRadiant, k, raw[n]) then {n} else {}
  {
    var n := |raw| - 1;
    forall x: nat | x < n
      ensures raw[..n][x] == raw[x]
    {
    }
  }

  /** The count is the number of raw events the predicate matches. */
  lemma {:induction false} CountIsMatchedEvents(raw: seq<Event>, isRadiant: int -> bool, k: FilterKey)
    ensures MatchCount(raw, isRadiant, k) == |MatchSet(raw, isRadiant, k)|
  {
    if raw != [] {
      CountIsMatchedEvents(raw[..|raw| - 1], isRadiant, k);
      MatchSetGrows(raw, isRadiant, k);
    }
  }

  /** Every event is Radiant or Dire, never both: the two counts add up to the number of events. */
  lemma {:induction false} TeamCountsAddUp(raw: seq<Event>, isRadiant: int -> bool)
    ensures MatchCount(raw, isRadiant, RadiantKey) + MatchCount(raw, isRadiant, DireKey) == |raw|
  {
    if raw != [] {
      TeamCountsAddUp(raw[..|raw| - 1], isRadiant);
    }
  }

  /** Every event is chat or chat wheel, never both: the two counts add up to the number of events. */
  lemma {:induction false} KindCountsAddUp(raw: seq<Event>, isRadiant: int -> bool)
    ensures MatchCount(raw, isRadiant, ChatKey) + MatchCount(raw, isRadiant, ChatWheelKey) == |raw|
  {
    if raw != [] {
      KindCountsAddUp(raw[..|raw| - 1], isRadiant);
    }
  }

  /**
   * Event `i` survives the removals: no filter whose toggle is off matches
   * it. The view is the raw events minus the union of the off filters' matches.
   */
  predicate Shown(raw: seq<Event>, isRadiant: int -> bool, state: Toggles, i: nat) {
    i < |raw| && forall k :: !state.Get(k) ==> !Matches(isRadiant, k, raw[i])
  }

  /** With every toggle on, every raw event is shown. */
  lemma AllOnShowsEverything(raw: seq<Event>, isRadiant: int -> bool, i: nat)
    requires i < |raw|
    ensures Shown(raw, isRadiant, AllShown, i)
  {
  }

  /** A filter whose toggle is off hides every event it matches, whatever the other toggles are. */
  lemma OffFilterHides(raw: seq<Event>, isRadiant: int -> bool, state: Toggles, k: FilterKey, i: nat)
    requires i < |raw| && !state.Get(k) && Matches(isRadiant, k, raw[i])
    ensures !Shown(raw, isRadiant, state, i)
  {
  }

  /** With the default toggles exactly the events that are not spam are shown. */
  lemma DefaultsHideOnlySpam(raw: seq<Event>, isRadiant: int -> bool, i: nat)
    requires i < |raw|
    ensures Shown(raw, isRadiant, Defaults, i) <==> !raw[i].spam
  {
    if !raw[i].spam {
      forall k | !Defaults.Get(k)
        ensures !Matches(isRadiant, k, raw[i])
      {
        assert k == SpamKey;
      }
    } else {
      OffFilterHides(raw, isRadiant, Defaults, SpamKey, i);
    }
  }

  /** The removal loop visits every filter. */
  lemma FilterOrderHasEveryKey(k: FilterKey)
    ensures k in FilterOrder
  {
  }
}

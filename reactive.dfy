/**
 * The reactive cell runtime of sketches/runtime.ts: channels (value cells) whose reads,
 * while a watcher is on top of the process-wide watcher stack, subscribe that watcher;
 * change-gated writes that hand every subscriber to be run; and the program context
 * with its name-to-channel table and the yielded value.
 *
 * Callbacks are known by identity only: a watcher is a number, and the effect it stands
 * for is described by an Effect value that the program context runs.
 */
module Reactive {
  import opened Wrappers

  /** A watcher callback, by identity. */
  type Watcher = nat

  datatype RuntimeError =
    | ConstViolation            // "Channel::set - can't set a const Channel"
    | UnknownReference(name: string)

  predicate NoDuplicates(s: seq<Watcher>) {
    forall i, j :: 0 <= i < j < |s| ==> s[i] != s[j]
  }

  /**
   * Set.prototype.add on a set that remembers insertion order: a new member goes
   * last, a present one changes nothing.
   */
  function Subscribe(subs: seq<Watcher>, w: Watcher): (r: seq<Watcher>)
    ensures NoDuplicates(subs) ==> NoDuplicates(r)
    ensures subs <= r && w in r
    ensures forall x :: x in r ==> x in subs || x == w
  {
    if w in subs then subs else subs + [w]
  }

  /** Subscribing when a watcher is on top of the stack; nothing otherwise. */
  function SubscribeTop(subs: seq<Watcher>, top: Option<Watcher>): (r: seq<Watcher>)
    ensures NoDuplicates(subs) ==> NoDuplicates(r)
    ensures subs <= r
    ensures top.Some? ==> top.value in r
    ensures forall x :: x in r ==> x in subs || top == Some(x)
  {
    match top
    case Some(w) => Subscribe(subs, w)
    case None => subs
  }

  /** Adding a present subscriber leaves the set as it is. */
  lemma SubscribeIdempotent(subs: seq<Watcher>, w: Watcher)
    ensures Subscribe(Subscribe(subs, w), w) == Subscribe(subs, w)
  {
  }

  /** In a sequence without duplicates every member occurs exactly once. */
  lemma {:induction false} OccursOnce(s: seq<Watcher>, w: Watcher)
    requires NoDuplicates(s)
    ensures multiset(s)[w] == if w in s then 1 else 0
  {
    if s != [] {
      var t := s[..|s| - 1];
      assert s == t + [s[|s| - 1]];
      assert NoDuplicates(t);
      OccursOnce(t, w);
      assert s[|s| - 1] !in t;
    }
  }

  /** The subscriber set of one channel (class Dep). */
  class Dep {
    var subscribers: seq<Watcher>

    ghost predicate Valid()
      reads this
    {
      NoDuplicates(subscribers)
    }

    constructor ()
      ensures Valid() && subscribers == []
    {
      subscribers := [];
    }

    /** depend: idempotent add; no subscriber is ever removed. */
    method Depend(w: Watcher)
      requires Valid()
      modifies this
      ensures Valid()
      ensures subscribers == Subscribe(old(subscribers), w)
    {
      if w !in subscribers {
        subscribers := subscribers + [w];
      }
    }

    /**
     * notify: the watchers to run, in the set's insertion order, each exactly once;
     * the subscriber set itself is not changed.
     */
    method Notify() returns (ran: seq<Watcher>)
      requires Valid()
      ensures ran == subscribers
      ensures forall w :: multiset(ran)[w] == if w in subscribers then 1 else 0
    {
      ran := subscribers;
      forall w ensures multiset(ran)[w] == if w in subscribers then 1 else 0 {
        OccursOnce(subscribers, w);
      }
    }
  }

  /** The process-wide activeWatchers array, used as a stack. */
  class WatcherStack {
    var entries: seq<Watcher>

    constructor ()
      ensures entries == []
    {
      entries := [];
    }

    /** The watcher currently evaluating, if any. */
    function Top(): (t: Option<Watcher>)
      reads this
      ensures t.Some? <==> entries != []
      ensures t.Some? ==> t.value == entries[|entries| - 1]
    {
      if entries == [] then None else Some(entries[|entries| - 1])
    }

    method Push(w: Watcher)
      modifies this
      ensures entries == old(entries) + [w] && Top() == Some(w)
    {
      entries := entries + [w];
    }

    /** Array.prototype.pop: an empty stack stays empty. */
    method Pop()
      modifies this
      ensures old(entries) == [] ==> entries == []
      ensures old(entries) != [] ==> entries == old(entries)[..|old(entries)| - 1]
    {
      if entries != [] {
        entries := entries[..|entries| - 1];
      }
    }
  }

  /** A value cell; a constant one has no subscriber set (class Channel). */
  class Channel {
    var value: int
    var isConst: bool
    var dep: Dep?

    ghost predicate Valid()
      reads this, dep
    {
      (isConst <==> dep == null) && (dep != null ==> dep.Valid())
    }

    constructor (initial: int, isConst: bool)
      ensures Valid() && value == initial && this.isConst == isConst
      ensures dep != null ==> fresh(dep) && dep.subscribers == []
    {
      value := initial;
      this.isConst := isConst;
      if !isConst {
        dep := new Dep();
      } else {
        dep := null;
      }
    }

    /**
     * get: the stored value, never changed; a mutable channel read while a watcher is
     * on top of the stack gains exactly that watcher as a subscriber.
     */
    method Get(stack: WatcherStack) returns (v: int)
      requires Valid()
      modifies dep
      ensures Valid() && v == value
      ensures dep != null ==> dep.subscribers == SubscribeTop(old(dep.subscribers), stack.Top())
    {
      if isConst {
        return value;
      }
      if stack.entries != [] {
        dep.Depend(stack.entries[|stack.entries| - 1]);
      }
      return value;
    }

    /**
     * set: a constant channel refuses every write; an equal value changes nothing and
     * runs nobody; a different value is stored and every current subscriber is handed
     * back to be run, exactly once each, with the subscriber set unchanged.
     */
    method Set(newValue: int) returns (r: Result<seq<Watcher>, RuntimeError>)
      requires Valid()
      modifies this`value
      ensures Valid()
      ensures isConst ==> r == Err(ConstViolation) && value == old(value)
      ensures !isConst && newValue == old(value) ==> r == Ok([]) && value == old(value)
      ensures !isConst && newValue != old(value) ==>
        value == newValue && r == Ok(dep.subscribers)
        && forall w :: multiset(r.value)[w] == if w in dep.subscribers then 1 else 0
    {
      if isConst {
        return Err(ConstViolation);
      }
      if newValue != value {
        value := newValue;
        var ran := dep.Notify();
        return Ok(ran);
      }
      return Ok([]);
    }
  }

  /**
   * What a watcher callback does when it runs. YieldEffect(ch) is the callback that
   * yield installs: it copies ch into yieldValue. ReadEffect(chans) stands for any
   * other effect body, by the channels it reads, in order.
   */
  datatype Effect = YieldEffect(source: Channel) | ReadEffect(sources: seq<Channel>)

  function Reads(e: Effect): seq<Channel> {
    match e
    case YieldEffect(ch) => [ch]
    case ReadEffect(chans) => chans
  }

  predicate IsYieldWatcher(w: Watcher, effects: map<Watcher, Effect>) {
    w in effects && effects[w].YieldEffect?
  }

  /**
   * The channel copied last into yieldValue when the watchers ran are run in order:
   * that of the last yield watcher among them.
   */
  function LastYieldSource(ran: seq<Watcher>, effects: map<Watcher, Effect>): (r: Option<Channel>)
    ensures r.None? <==> forall k :: 0 <= k < |ran| ==> !IsYieldWatcher(ran[k], effects)
    ensures r.Some? ==> exists k :: (0 <= k < |ran| && IsYieldWatcher(ran[k], effects)
      && effects[ran[k]].source == r.value
      && forall k' :: k < k' < |ran| ==> !IsYieldWatcher(ran[k'], effects))
  {
    if ran == [] then None
    else
      var w := ran[|ran| - 1];
      if IsYieldWatcher(w, effects) then Some(effects[w].source)
      else LastYieldSource(ran[..|ran| - 1], effects)
  }

  /** Watcher w's effect reads channel c. */
  predicate EffectReads(w: Watcher, effects: map<Watcher, Effect>, c: Channel) {
    w in effects && c in Reads(effects[w])
  }

  /** Some watcher among ran has an effect that reads c. */
  predicate ReadByAny(ran: seq<Watcher>, effects: map<Watcher, Effect>, c: Channel) {
    exists k :: 0 <= k < |ran| && EffectReads(ran[k], effects, c)
  }

  lemma ReadByAnyStep(ran: seq<Watcher>, i: nat, effects: map<Watcher, Effect>, c: Channel)
    requires i < |ran|
    ensures ReadByAny(ran[..i + 1], effects, c) <==> ReadByAny(ran[..i], effects, c) || EffectReads(ran[i], effects, c)
  {
    if ReadByAny(ran[..i + 1], effects, c) {
      var k :| 0 <= k < i + 1 && EffectReads(ran[..i + 1][k], effects, c);
      if k < i {
        assert EffectReads(ran[..i][k], effects, c);
      }
    }
    if ReadByAny(ran[..i], effects, c) {
      var k :| 0 <= k < i && EffectReads(ran[..i][k], effects, c);
      assert EffectReads(ran[..i + 1][k], effects, c);
    }
    if EffectReads(ran[i], effects, c) {
      assert EffectReads(ran[..i + 1][i], effects, c);
    }
  }

  /** Subscribing the same top twice is subscribing it once. */
  lemma SubscribeTopIdempotent(subs: seq<Watcher>, top: Option<Watcher>)
    ensures SubscribeTop(SubscribeTop(subs, top), top) == SubscribeTop(subs, top)
  {
    if top.Some? {
      SubscribeIdempotent(subs, top.value);
    }
  }

  /**
   * One more callback keeps a channel's subscriber set as "resubscribed to the top of
   * the stack exactly when one of the callbacks run so far reads it".
   */
  lemma CallbackStep(ran: seq<Watcher>, i: nat, effects: map<Watcher, Effect>, c: Channel,
                     orig: seq<Watcher>, was: seq<Watcher>, now: seq<Watcher>, top: Option<Watcher>)
    requires i < |ran|
    requires was == if ReadByAny(ran[..i], effects, c) then SubscribeTop(orig, top) else orig
    requires now == if EffectReads(ran[i], effects, c) then SubscribeTop(was, top) else was
    ensures now == if ReadByAny(ran[..i + 1], effects, c) then SubscribeTop(orig, top) else orig
  {
    ReadByAnyStep(ran, i, effects, c);
    SubscribeTopIdempotent(orig, top);
  }

  /** The value of the channel, if any, or the fallback. */
  function ValueOr(src: Option<Channel>, fallback: int): int
    reads if src.Some? then {src.value} else {}
  {
    match src
    case Some(c) => c.value
    case None => fallback
  }

  lemma LastYieldStep(ran: seq<Watcher>, i: nat, effects: map<Watcher, Effect>)
    requires i < |ran|
    ensures LastYieldSource(ran[..i + 1], effects) ==
      if IsYieldWatcher(ran[i], effects) then Some(effects[ran[i]].source) else LastYieldSource(ran[..i], effects)
  {
    assert ran[..i + 1][..i] == ran[..i];
  }

  /**
   * When every yield watcher among subs copies ch, the last of them to run copies ch:
   * a run of subs shows ch in the output as soon as one of them is a yield watcher.
   */
  lemma TrackedSource(subs: seq<Watcher>, effects: map<Watcher, Effect>, ch: Channel)
    requires forall w :: w in subs && IsYieldWatcher(w, effects) ==> effects[w].source == ch
    ensures (exists w :: w in subs && IsYieldWatcher(w, effects)) ==> LastYieldSource(subs, effects) == Some(ch)
  {
    if w :| w in subs && IsYieldWatcher(w, effects) {
      var i :| 0 <= i < |subs| && subs[i] == w;
      var r := LastYieldSource(subs, effects);
      assert r.Some?;
      var k :| 0 <= k < |subs| && IsYieldWatcher(subs[k], effects) && effects[subs[k]].source == r.value;
      assert subs[k] in subs;
    }
  }

  /** The argument of yield: a raw value, or a channel. */
  datatype YieldArg = Raw(v: int) | Cell(ch: Channel)

  /** The state object that $run hands to a program (ProcState). */
  class ProcState {
    var yieldValue: int
    var channels: map<string, Channel>
    /** The callbacks this program has handed to watch, by identity. */
    var effects: map<Watcher, Effect>
    var nextWatcher: Watcher
    const stack: WatcherStack
    /** Every channel the program has created, and the subscriber sets by their channel. */
    ghost var Chans: set<Channel>
    ghost var Owner: map<Dep, Channel>

    /** Each subscriber set is owned by exactly one of the program's channels. */
    ghost predicate SubscriberSetsValid()
      reads this`Owner, this`Chans, Owner.Keys, Chans`dep
    {
      forall d :: d in Owner ==> d.Valid() && Owner[d] in Chans && Owner[d].dep == d
    }

    /** A channel has a subscriber set exactly when it is mutable. */
    ghost predicate ChannelsValid()
      reads this`Owner, this`Chans, Chans`isConst, Chans`dep
    {
      forall c :: c in Chans ==> (c.isConst <==> c.dep == null) && (c.dep != null ==> c.dep in Owner && Owner[c.dep] == c)
    }

    /** Names are bound to mutable channels of the program. */
    ghost predicate BindingsValid()
      reads this`channels, this`Chans, Chans`isConst
    {
      forall n :: n in channels ==> channels[n] in Chans && !channels[n].isConst
    }

    /** Watchers already handed out are below nextWatcher and read only the program's channels. */
    ghost predicate EffectsValid()
      reads this`effects, this`nextWatcher, this`Chans
    {
      forall w :: w in effects ==> w < nextWatcher && forall c :: c in Reads(effects[w]) ==> c in Chans
    }

    /**
     * Every watcher on the stack or in a subscriber set is one of the program's
     * callbacks, so a watcher handed out later is a new callback to all of them.
     */
    ghost predicate WatchersRegistered()
      reads this`effects, this`Owner, stack, Owner.Keys
    {
      (forall w :: w in stack.entries ==> w in effects)
      && forall d, w :: d in Owner && w in d.subscribers ==> w in effects
    }

    /** The callback yield installs reads its own channel only, so it subscribes to nothing else. */
    ghost predicate YieldSubscriptionsValid()
      reads this`effects, this`Owner, Owner.Keys
    {
      forall d, w :: d in Owner && w in d.subscribers && IsYieldWatcher(w, effects) ==> effects[w].source == Owner[d]
    }

    ghost predicate Valid()
      reads this, stack, Chans`isConst, Chans`dep, Owner.Keys
    {
      SubscriberSetsValid() && ChannelsValid() && BindingsValid() && EffectsValid()
      && WatchersRegistered() && YieldSubscriptionsValid()
    }

    /** No yield callback is on top of the stack, so a read of any channel keeps Valid. */
    ghost predicate TopIsNoYield()
      reads this`effects, stack
    {
      match stack.Top()
      case None => true
      case Some(t) => !IsYieldWatcher(t, effects)
    }

    /**
     * A read of c with the current top of the stack keeps the yield callbacks subscribed
     * to their own channels only: the top is no yield callback, or one whose channel is c.
     */
    ghost predicate TopMayRead(c: Channel)
      reads this`effects, stack
    {
      match stack.Top()
      case None => true
      case Some(t) => !IsYieldWatcher(t, effects) || effects[t].source == c
    }

    lemma ChannelValid(c: Channel)
      requires Valid() && c in Chans
      ensures c.Valid()
    {
    }

    /** The yield callbacks subscribed to one of the program's channels all copy that channel. */
    lemma SubscribersOf(ch: Channel)
      requires Valid() && ch in Chans && ch.dep != null
      ensures forall w :: w in ch.dep.subscribers && IsYieldWatcher(w, effects) ==> effects[w].source == ch
    {
      assert ch.dep in Owner && Owner[ch.dep] == ch;
    }

    /** A run of a channel's subscribers shows that channel as soon as one of them is a yield callback. */
    lemma SubscribersShow(ch: Channel)
      requires Valid() && ch in Chans && ch.dep != null
      ensures (exists w :: w in ch.dep.subscribers && IsYieldWatcher(w, effects)) ==>
        LastYieldSource(ch.dep.subscribers, effects) == Some(ch)
    {
      SubscribersOf(ch);
      TrackedSource(ch.dep.subscribers, effects, ch);
    }

    /** $run builds the context from the top level, with no watcher evaluating. */
    constructor (stack: WatcherStack)
      requires stack.entries == []
      ensures Valid() && this.stack == stack
      ensures yieldValue == 0 && channels == map[] && effects == map[] && nextWatcher == 0
      ensures Chans == {} && Owner == map[]
    {
      this.stack := stack;
      yieldValue := 0;
      channels := map[];
      effects := map[];
      nextWatcher := 0;
      Chans := {};
      Owner := map[];
    }

    /** local: bind name to a fresh mutable channel holding value; other bindings stay. */
    method Local(name: string, value: int)
      requires Valid()
      modifies this`channels, this`Chans, this`Owner
      ensures Valid()
      ensures name in channels && fresh(channels[name]) && fresh(channels[name].dep)
      ensures channels == old(channels)[name := channels[name]]
      ensures channels[name].value == value && !channels[name].isConst
      ensures channels[name].dep.subscribers == []
      ensures yieldValue == old(yieldValue) && effects == old(effects) && nextWatcher == old(nextWatcher)
      ensures Chans == old(Chans) + {channels[name]} && Owner == old(Owner)[channels[name].dep := channels[name]]
    {
      var ch := new Channel(value, false);
      channels := channels[name := ch];
      Chans := Chans + {ch};
      Owner := Owner[ch.dep := ch];
      forall d, w | d in Owner && w in d.subscribers
        ensures w in effects && (IsYieldWatcher(w, effects) ==> effects[w].source == Owner[d])
      {
        assert d in old(Owner);
      }
    }

    /** ch.get() on one of the program's channels: only that channel's subscriber set can change. */
    method ReadOne(ch: Channel) returns (v: int)
      requires Valid() && ch in Chans && (!ch.isConst ==> TopMayRead(ch))
      modifies Owner.Keys
      ensures Valid() && v == ch.value
      ensures forall c :: c in Chans && c.dep != null ==>
        c.dep.subscribers == if c == ch then SubscribeTop(old(c.dep.subscribers), stack.Top()) else old(c.dep.subscribers)
    {
      ChannelValid(ch);
      v := ch.Get(stack);
      forall d | d in Owner ensures d.Valid() {
        if d != ch.dep {
          assert d.subscribers == old(d.subscribers);
        }
      }
    }

    /** Reads each of cs in order, with whatever is on top of the watcher stack. */
    method ReadAll(cs: seq<Channel>)
      requires Valid()
      requires forall c :: c in cs ==> c in Chans && TopMayRead(c)
      modifies Owner.Keys
      ensures Valid()
      ensures forall c :: c in Chans && c.dep != null ==>
        c.dep.subscribers == if c in cs then SubscribeTop(old(c.dep.subscribers), stack.Top()) else old(c.dep.subscribers)
    {
      ghost var top := stack.Top();
      var i := 0;
      while i < |cs|
        invariant 0 <= i <= |cs|
        invariant Valid() && stack.Top() == top
        invariant forall c :: c in Chans && c.dep != null ==>
          c.dep.subscribers == if c in cs[..i] then SubscribeTop(old(c.dep.subscribers), top) else old(c.dep.subscribers)
      {
        var _ := ReadOne(cs[i]);
        forall c | c in Chans && c.dep != null
          ensures c.dep.subscribers == if c in cs[..i + 1] then SubscribeTop(old(c.dep.subscribers), top) else old(c.dep.subscribers)
        {
          assert cs[..i + 1] == cs[..i] + [cs[i]];
          if c == cs[i] && c in cs[..i] && top.Some? {
            SubscribeIdempotent(old(c.dep.subscribers), top.value);
          }
        }
        i := i + 1;
      }
      assert cs[..i] == cs;
    }

    /** One effect body, run with whatever is on top of the watcher stack. */
    method RunEffect(e: Effect)
      requires Valid()
      requires forall c :: c in Reads(e) ==> c in Chans && TopMayRead(c)
      modifies this`yieldValue, Owner.Keys
      ensures Valid()
      ensures yieldValue == if e.YieldEffect? then e.source.value else old(yieldValue)
      ensures forall c :: c in Chans && c.dep != null ==>
        c.dep.subscribers == if c in Reads(e) then SubscribeTop(old(c.dep.subscribers), stack.Top()) else old(c.dep.subscribers)
    {
      match e
      case YieldEffect(ch) =>
        yieldValue := ReadOne(ch);
      case ReadEffect(cs) =>
        ReadAll(cs);
    }

    /** Hands out the next watcher identity for the effect e. */
    method Register(e: Effect) returns (w: Watcher)
      requires Valid()
      requires forall c :: c in Reads(e) ==> c in Chans
      modifies this`nextWatcher, this`effects
      ensures Valid()
      ensures w == old(nextWatcher) && nextWatcher == w + 1 && effects == old(effects)[w := e]
    {
      w := nextWatcher;
      nextWatcher := nextWatcher + 1;
      effects := effects[w := e];
      forall v | v in effects ensures v < nextWatcher && forall c :: c in Reads(effects[v]) ==> c in Chans {
        if v != w {
          assert v in old(effects);
        }
      }
      forall d, v | d in Owner && v in d.subscribers && IsYieldWatcher(v, effects)
        ensures effects[v].source == Owner[d]
      {
        assert v in old(effects) && v != w;
      }
    }

    /** Push w, run e with w on top of the watcher stack, pop. */
    method RunWatched(w: Watcher, e: Effect)
      requires Valid() && w in effects && effects[w] == e
      modifies this`yieldValue, Owner.Keys, stack
      ensures Valid()
      ensures stack.entries == old(stack.entries)
      ensures yieldValue == if e.YieldEffect? then e.source.value else old(yieldValue)
      ensures forall c :: c in Chans && c.dep != null ==>
        c.dep.subscribers == if c in Reads(e) then Subscribe(old(c.dep.subscribers), w) else old(c.dep.subscribers)
    {
      ghost var outer := stack.entries;
      stack.Push(w);
      label pushed:
      RunEffect(e);
      forall c | c in Chans && c.dep != null
        ensures c.dep.subscribers == if c in Reads(e) then Subscribe(old(c.dep.subscribers), w) else old(c.dep.subscribers)
      {
        assert old@pushed(c.dep.subscribers) == old(c.dep.subscribers);
      }
      stack.Pop();
      assert stack.entries == (outer + [w])[..|outer|] == outer;
    }

    /**
     * watch: push the fresh watcher, run its effect at once (so the channels it reads
     * subscribe exactly it), then pop; the stack ends as it began.
     */
    method Watch(e: Effect) returns (w: Watcher)
      requires Valid()
      requires forall c :: c in Reads(e) ==> c in Chans
      modifies this`nextWatcher, this`effects, this`yieldValue, Owner.Keys, stack
      ensures Valid()
      ensures w == old(nextWatcher) && nextWatcher == w + 1 && effects == old(effects)[w := e]
      ensures stack.entries == old(stack.entries)
      ensures yieldValue == if e.YieldEffect? then e.source.value else old(yieldValue)
      ensures forall c :: c in Chans && c.dep != null ==>
        c.dep.subscribers == if c in Reads(e) then Subscribe(old(c.dep.subscribers), w) else old(c.dep.subscribers)
    {
      w := Register(e);
      RunWatched(w, e);
    }

    /**
     * watch(f) for a callback f already handed to watch: the same watcher is pushed
     * and run again, and since a subscriber set adds by identity, no channel gains it
     * a second time.
     */
    method Rewatch(w: Watcher)
      requires Valid() && w in effects
      modifies this`yieldValue, Owner.Keys, stack
      ensures Valid()
      ensures stack.entries == old(stack.entries)
      ensures yieldValue == if effects[w].YieldEffect? then effects[w].source.value else old(yieldValue)
      ensures forall c :: c in Chans && c.dep != null ==>
        c.dep.subscribers == if c in Reads(effects[w]) then Subscribe(old(c.dep.subscribers), w) else old(c.dep.subscribers)
    {
      RunWatched(w, effects[w]);
    }

    /** The channel yield works on: a fresh constant channel for a raw value. */
    method ChannelOf(arg: YieldArg) returns (ch: Channel)
      requires Valid()
      requires arg.Cell? ==> arg.ch in Chans
      modifies this`Chans
      ensures Valid() && ch in Chans
      ensures arg.Raw? ==> fresh(ch) && ch.isConst && ch.value == arg.v && Chans == old(Chans) + {ch}
      ensures arg.Cell? ==> ch == arg.ch && Chans == old(Chans)
    {
      if arg.Raw? {
        ch := new Channel(arg.v, true);
        Chans := Chans + {ch};
      } else {
        ch := arg.ch;
      }
    }

    /**
     * The body of yield once it has a channel: read it once (the log line reads it),
     * watch it with a new effect that copies it into yieldValue, read it again for
     * the result.
     */
    method YieldChannel(ch: Channel) returns (r: int)
      requires Valid() && ch in Chans && (!ch.isConst ==> TopMayRead(ch))
      modifies this`nextWatcher, this`effects, this`yieldValue, Owner.Keys, stack
      ensures Valid()
      ensures stack.entries == old(stack.entries)
      ensures nextWatcher == old(nextWatcher) + 1 && effects == old(effects)[old(nextWatcher) := YieldEffect(ch)]
      ensures r == ch.value && yieldValue == ch.value
      ensures forall c :: c in Chans && c.dep != null ==>
        c.dep.subscribers ==
          if c == ch
          then SubscribeTop(Subscribe(SubscribeTop(old(c.dep.subscribers), stack.Top()), old(nextWatcher)), stack.Top())
          else old(c.dep.subscribers)
    {
      ghost var top := stack.Top();
      var _ := ReadOne(ch);
      label logged:
      var w := Watch(YieldEffect(ch));
      label watched:
      r := ReadOne(ch);
      forall c | c in Chans && c.dep != null
        ensures c.dep.subscribers ==
          if c == ch then SubscribeTop(Subscribe(SubscribeTop(old(c.dep.subscribers), top), w), top)
          else old(c.dep.subscribers)
      {
        assert old@watched(c.dep.subscribers) == if c == ch then Subscribe(old@logged(c.dep.subscribers), w) else old@logged(c.dep.subscribers);
      }
    }

    /**
     * yield: a raw value becomes a fresh constant channel, which then is read, watched
     * by a new effect that keeps yieldValue equal to it, and read again for the result.
     */
    method Yield(arg: YieldArg) returns (r: int)
      requires Valid()
      requires arg.Cell? ==> arg.ch in Chans && TopMayRead(arg.ch)
      modifies this`Chans, this`nextWatcher, this`effects, this`yieldValue, Owner.Keys, stack
      ensures Valid()
      ensures stack.entries == old(stack.entries)
      ensures nextWatcher == old(nextWatcher) + 1 && old(nextWatcher) in effects
      ensures effects == old(effects)[old(nextWatcher) := effects[old(nextWatcher)]]
      ensures effects[old(nextWatcher)].YieldEffect?
      ensures var ch := effects[old(nextWatcher)].source;
        r == ch.value && yieldValue == ch.value
        && (arg.Raw? ==> fresh(ch) && ch.isConst && ch.value == arg.v && Chans == old(Chans) + {ch})
        && (arg.Cell? ==> ch == arg.ch && Chans == old(Chans))
      ensures forall c :: c in old(Chans) && c.dep != null ==>
        c.dep.subscribers ==
          if arg.Cell? && c == arg.ch
          then SubscribeTop(Subscribe(SubscribeTop(old(c.dep.subscribers), stack.Top()), old(nextWatcher)), stack.Top())
          else old(c.dep.subscribers)
    {
      var ch := ChannelOf(arg);
      r := YieldChannel(ch);
    }

    /**
     * sub(): one watcher handed back by a write is called with whatever is on top of the
     * watcher stack (the call does not push it). A watcher that is not one of this
     * program's callbacks has no effect here.
     */
    method RunCallback(w: Watcher)
      requires Valid() && TopIsNoYield()
      modifies this`yieldValue, Owner.Keys
      ensures Valid()
      ensures yieldValue == if IsYieldWatcher(w, effects) then effects[w].source.value else old(yieldValue)
      ensures forall c :: c in Chans && c.dep != null ==>
        c.dep.subscribers ==
          if EffectReads(w, effects, c) then SubscribeTop(old(c.dep.subscribers), stack.Top()) else old(c.dep.subscribers)
    {
      if w in effects {
        RunEffect(effects[w]);
      }
    }

    /** The forEach of notify: the watchers handed back by a write are called in order. */
    method RunCallbacks(ran: seq<Watcher>)
      requires Valid() && TopIsNoYield()
      modifies this`yieldValue, Owner.Keys
      ensures Valid()
      ensures yieldValue == ValueOr(LastYieldSource(ran, effects), old(yieldValue))
      ensures forall c :: c in Chans && c.dep != null ==>
        c.dep.subscribers ==
          if ReadByAny(ran, effects, c) then SubscribeTop(old(c.dep.subscribers), stack.Top()) else old(c.dep.subscribers)
      ensures stack.entries == [] ==> forall c :: c in Chans && c.dep != null ==> c.dep.subscribers == old(c.dep.subscribers)
    {
      ghost var top := stack.Top();
      var i := 0;
      while i < |ran|
        invariant 0 <= i <= |ran|
        invariant Valid() && TopIsNoYield() && stack.Top() == top
        invariant yieldValue == ValueOr(LastYieldSource(ran[..i], effects), old(yieldValue))
        invariant forall c :: c in Chans && c.dep != null ==>
          c.dep.subscribers ==
            if ReadByAny(ran[..i], effects, c) then SubscribeTop(old(c.dep.subscribers), top) else old(c.dep.subscribers)
      {
        LastYieldStep(ran, i, effects);
        label before:
        RunCallback(ran[i]);
        forall c | c in Chans && c.dep != null
          ensures c.dep.subscribers ==
            if ReadByAny(ran[..i + 1], effects, c) then SubscribeTop(old(c.dep.subscribers), top) else old(c.dep.subscribers)
        {
          CallbackStep(ran, i, effects, c, old(c.dep.subscribers), old@before(c.dep.subscribers), c.dep.subscribers, top);
        }
        i := i + 1;
      }
      assert ran[..i] == ran;
    }

    /**
     * ch.set(value) on one of the program's channels, with the notify it triggers: a
     * changed value runs the channel's subscribers; an equal value changes nothing.
     */
    method Write(ch: Channel, value: int)
      requires Valid() && ch in Chans && !ch.isConst && stack.entries == []
      modifies ch`value, this`yieldValue, Owner.Keys
      ensures Valid()
      ensures ch.value == value
      ensures value == old(ch.value) ==>
        yieldValue == old(yieldValue) && forall c :: c in Chans && c.dep != null ==> c.dep.subscribers == old(c.dep.subscribers)
      ensures value != old(ch.value) ==>
        yieldValue == ValueOr(LastYieldSource(old(ch.dep.subscribers), effects), old(yieldValue))
        && forall c :: c in Chans && c.dep != null ==>
             c.dep.subscribers ==
               if ReadByAny(old(ch.dep.subscribers), effects, c) then SubscribeTop(old(c.dep.subscribers), stack.Top())
               else old(c.dep.subscribers)
      ensures value != old(ch.value) && (exists w :: w in old(ch.dep.subscribers) && IsYieldWatcher(w, effects)) ==>
        yieldValue == value
    {
      ChannelValid(ch);
      ghost var subs := ch.dep.subscribers;
      SubscribersShow(ch);
      var written := ch.Set(value);
      assert written.value == if value == old(ch.value) then [] else subs;
      label stored:
      RunCallbacks(written.value);
      assert old@stored(yieldValue) == old(yieldValue);
      if value != old(ch.value) {
        assert yieldValue == ValueOr(LastYieldSource(subs, effects), old(yieldValue));
      } else {
        assert LastYieldSource([], effects) == None;
      }
    }

    /**
     * ref: an undeclared name is an error; otherwise the bound channel is the result,
     * and a given value is written to it, running its subscribers when it changes.
     */
    method Ref(name: string, value: Option<int>) returns (r: Result<Channel, RuntimeError>)
      requires Valid() && stack.entries == []
      modifies Chans`value, this`yieldValue, Owner.Keys
      ensures Valid()
      ensures name !in channels ==> r == Err(UnknownReference(name))
      ensures name in channels ==> r == Ok(channels[name])
      ensures name !in channels || value.None? ==>
        yieldValue == old(yieldValue) && unchanged(Chans) && unchanged(Owner.Keys)
      ensures name in channels && value.Some? && value.value == old(channels[name].value) ==>
        yieldValue == old(yieldValue) && unchanged(Chans)
        && forall c :: c in Chans && c.dep != null ==> c.dep.subscribers == old(c.dep.subscribers)
      ensures name in channels && value.Some? && value.value != old(channels[name].value) ==>
        var ch := channels[name];
        ch.value == value.value
        && (forall c :: c in Chans && c != ch ==> c.value == old(c.value))
        && yieldValue == ValueOr(LastYieldSource(old(ch.dep.subscribers), effects), old(yieldValue))
        && (forall c :: c in Chans && c.dep != null ==>
             c.dep.subscribers ==
               if ReadByAny(old(ch.dep.subscribers), effects, c) then SubscribeTop(old(c.dep.subscribers), stack.Top())
               else old(c.dep.subscribers))
        && ((exists w :: w in old(ch.dep.subscribers) && IsYieldWatcher(w, effects)) ==> yieldValue == value.value)
    {
      if name !in channels {
        return Err(UnknownReference(name));
      }
      var ch := channels[name];
      if value.Some? {
        Write(ch, value.value);
      }
      return Ok(ch);
    }
  }

  /** A new program context over an empty stack, after local a = 1 and ref a. */
  method DeclareA() returns (program: ProcState, ch: Channel)
    ensures fresh(program) && fresh(program.stack) && fresh(program.Chans) && fresh(program.Owner.Keys)
    ensures program.Valid() && program.stack.entries == []
    ensures program.channels == map["a" := ch] && program.Chans == {ch}
    ensures !ch.isConst && ch.value == 1 && ch.dep.subscribers == []
    ensures program.effects == map[] && program.nextWatcher == 0 && program.yieldValue == 0
  {
    var stack := new WatcherStack();
    program := new ProcState(stack);
    program.Local("a", 1);
    var a := program.Ref("a", None);
    ch := a.value;
  }

  /**
   * The first part of the runtime's own example program: local a = 1, then yield the
   * channel a. The yield's watcher is the only subscriber of a.
   */
  method StartYielding() returns (program: ProcState, ch: Channel, initial: int)
    ensures fresh(program) && fresh(program.stack) && fresh(program.Chans) && fresh(program.Owner.Keys)
    ensures program.Valid() && program.stack.entries == []
    ensures program.channels == map["a" := ch] && program.Chans == {ch}
    ensures !ch.isConst && ch.value == 1 && ch.dep.subscribers == [0]
    ensures program.effects == map[0 := YieldEffect(ch)]
    ensures initial == 1 && program.yieldValue == 1
  {
    program, ch := DeclareA();
    assert program.stack.Top() == None;
    var _ := program.Yield(Cell(ch));
    initial := program.yieldValue;
    assert ch.dep.subscribers == SubscribeTop(Subscribe(SubscribeTop([], None), 0), None);
  }

  /**
   * The runtime's own example program: local a = 1; yield the channel a; later (the
   * one-second timer's body) write 2 to a. The output follows the write at once.
   */
  method YieldTracking() returns (initial: int, afterWrite: int)
    ensures initial == 1 && afterWrite == 2
  {
    var program, ch;
    program, ch, initial := StartYielding();
    assert LastYieldSource([0], program.effects) == Some(ch);
    var _ := program.Ref("a", Some(2));
    afterWrite := program.yieldValue;
    assert afterWrite == ValueOr(Some(ch), 1);
  }

  /**
   * In any program context with no watcher evaluating: yield a declared channel, then
   * write a value to it through ref. The output shows the written value.
   */
  method YieldThenWrite(program: ProcState, name: string, v: int) returns (shown: int)
    requires program.Valid() && program.stack.entries == [] && name in program.channels
    modifies program, program.stack, program.Owner.Keys, program.Chans
    ensures shown == v
  {
    var ch := program.channels[name];
    var w := program.nextWatcher;
    var _ := program.Yield(Cell(ch));
    assert w in ch.dep.subscribers && IsYieldWatcher(w, program.effects);
    var _ := program.Ref(name, Some(v));
    shown := program.yieldValue;
  }

  /** A raw value handed to yield becomes a constant channel: every write to it is refused. */
  method ConstantYield(v: int, attempt: int) returns (output: int, written: Result<seq<Watcher>, RuntimeError>)
    ensures output == v && written == Err(ConstViolation)
  {
    var stack := new WatcherStack();
    var program := new ProcState(stack);
    var _ := program.Yield(Raw(v));
    output := program.yieldValue;
    var ch := program.effects[0].source;
    program.ChannelValid(ch);
    written := ch.Set(attempt);
  }

  /** local x = 1, then watch an effect that reads x: the new watcher is x's one subscriber. */
  method StartWatching() returns (program: ProcState, x: Channel, w: Watcher)
    ensures fresh(program) && fresh(program.stack) && fresh(program.Chans) && fresh(program.Owner.Keys)
    ensures program.Valid() && program.stack.entries == []
    ensures program.Chans == {x} && !x.isConst && x.value == 1 && x.dep.subscribers == [w]
    ensures program.effects == map[w := ReadEffect([x])]
  {
    var stack := new WatcherStack();
    program := new ProcState(stack);
    program.Local("x", 1);
    x := program.channels["x"];
    assert x.dep.subscribers == [];
    w := program.Watch(ReadEffect([x]));
    assert x in Reads(ReadEffect([x]));
  }

  /**
   * A watcher that read a channel is handed back by every later write of a different
   * value to it, and stays subscribed after it has run again. Each write is the step
   * Write takes: Channel.Set, then running what it hands back.
   */
  method DependencyCapture() returns (w: Watcher, first: seq<Watcher>, second: seq<Watcher>)
    ensures first == [w] && second == [w]
  {
    var program, x;
    program, x, w := StartWatching();
    program.ChannelValid(x);
    var r1 := x.Set(2);
    first := r1.value;
    assert EffectReads(first[0], program.effects, x);
    assert ReadByAny(first, program.effects, x);
    assert program.stack.Top() == None;
    program.RunCallbacks(first);
    assert x.dep.subscribers == SubscribeTop([w], None) == [w];
    program.ChannelValid(x);
    var r2 := x.Set(3);
    second := r2.value;
    program.RunCallbacks(second);
  }

  /**
   * One callback handed to watch twice is one subscriber: a later changing write
   * hands it back once, and it is run once.
   */
  method WatchTwice() returns (w: Watcher, ran: seq<Watcher>)
    ensures ran == [w]
  {
    var program, x;
    program, x, w := StartWatching();
    program.Rewatch(w);
    assert x in Reads(program.effects[w]);
    assert x.dep.subscribers == Subscribe([w], w) == [w];
    program.ChannelValid(x);
    var r := x.Set(2);
    ran := r.value;
    program.RunCallbacks(ran);
  }
}

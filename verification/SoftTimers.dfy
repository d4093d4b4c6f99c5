/** The software timers of tm_stm32_delay.c: a table of timers counted down by the 1 ms
    system tick. */
module SoftTimers {
  import opened Arithmetic
  import opened Bytes

  const MAX_TIMERS: nat := 5

  /** The value of one timer; `fired` counts how often its callback has been called. */
  datatype TimerValue = TimerValue(arr: uint32, cnt: uint32, aren: bool, cnten: bool, fired: nat)

  /** What one tick does to a timer whose callback leaves the table alone. */
  function Tick(t: TimerValue): TimerValue
  {
    if !t.cnten then t
    else
      var c := if t.cnt > 0 then t.cnt - 1 else 0;
      if c > 0 then t.(cnt := c)
      else t.(cnt := t.arr, cnten := t.aren, fired := t.fired + 1)
  }

  function Ticks(t: TimerValue, n: nat): TimerValue
  {
    if n == 0 then t else Tick(Ticks(t, n - 1))
  }

  /** A run in which the timer is enabled or disabled before each tick as `enable` says. */
  function GatedTicks(t: TimerValue, enable: seq<bool>): TimerValue
  {
    if enable == [] then t
    else
      var last := |enable| - 1;
      Tick(GatedTicks(t, enable[..last]).(cnten := enable[last]))
  }

  function Count(enable: seq<bool>): (n: nat)
    ensures n <= |enable|
  {
    if enable == [] then 0
    else Count(enable[..|enable| - 1]) + (if enable[|enable| - 1] then 1 else 0)
  }

  /** The state TimerCreate, TimerReset and every expiry leave behind. */
  predicate Loaded(t: TimerValue)
  {
    t.cnt == t.arr
  }

  /** An auto-reload timer fires exactly once per `p` enabled ticks, whenever those come:
      `p` is its reload value, or 1 when that is 0. Its phase is what is left over. */
  lemma {:induction false} PeriodsExact(t: TimerValue, enable: seq<bool>)
    requires Loaded(t) && t.aren
    ensures var p, n, r := Max(t.arr, 1), Count(enable), GatedTicks(t, enable);
            && r.fired == t.fired + n / p
            && r.arr == t.arr && r.aren
            && (t.arr >= 1 ==> r.cnt == p - n % p)
            && (t.arr == 0 ==> r.cnt == 0)
  {
    if enable != [] {
      var last := |enable| - 1;
      PeriodsExact(t, enable[..last]);
      if enable[last] {
        OneMore(Count(enable[..last]), Max(t.arr, 1));
      }
    }
  }

  lemma OneMore(n: nat, p: nat)
    requires p >= 1
    ensures if n % p == p - 1 then (n + 1) / p == n / p + 1 && (n + 1) % p == 0
            else (n + 1) / p == n / p && (n + 1) % p == n % p + 1
  {
    var q, r := n / p, n % p;
    assert n + 1 == q * p + (r + 1);
    if r == p - 1 {
      assert n + 1 == (q + 1) * p;
      UniqueQuotient(n + 1, p, q + 1, 0);
    } else {
      UniqueQuotient(n + 1, p, q, r + 1);
    }
  }

  /** An auto-reload timer left running fires exactly every `p` ticks. */
  lemma {:induction false} GatedIsTicks(t: TimerValue, n: nat)
    requires t.aren && t.cnten
    ensures Ticks(t, n) == GatedTicks(t, seq(n, _ => true)) && Ticks(t, n).cnten && Ticks(t, n).aren
    ensures Count(seq(n, _ => true)) == n
  {
    if n > 0 {
      GatedIsTicks(t, n - 1);
      assert seq(n, _ => true)[..n - 1] == seq(n - 1, _ => true);
    }
  }

  /** A one-shot timer fires once, at tick max(reload, 1), and then stays stopped. */
  lemma {:induction false} OneShot(t: TimerValue, n: nat)
    requires Loaded(t) && !t.aren && t.cnten
    ensures var p, r := Max(t.arr, 1), Ticks(t, n);
            if n < p then r == t.(cnt := if t.arr == 0 then 0 else t.arr - n)
            else r == t.(cnten := false, fired := t.fired + 1)
  {
    if n > 0 {
      OneShot(t, n - 1);
    }
  }

  class Timer {
    var arr: uint32
    var cnt: uint32
    var aren: bool
    var cnten: bool
    ghost var fired: nat

    /** Both commands end up in one-bit fields. */
    constructor (reload: uint32, autoReloadCmd: byte, startTimer: byte)
      ensures Value() == TimerValue(reload, reload, autoReloadCmd % 2 == 1, startTimer % 2 == 1, 0)
    {
      arr, cnt, fired := reload, reload, 0;
      aren, cnten := autoReloadCmd % 2 == 1, startTimer % 2 == 1;
    }

    ghost function Value(): TimerValue
      reads this
    {
      TimerValue(arr, cnt, aren, cnten, fired)
    }

    method Stop()
      modifies this`cnten
      ensures Value() == old(Value()).(cnten := false)
    {
      cnten := false;
    }

    method Start()
      modifies this`cnten
      ensures Value() == old(Value()).(cnten := true)
    {
      cnten := true;
    }

    method Reset()
      modifies this`cnt
      ensures Value() == old(Value()).(cnt := arr) && Loaded(Value())
    {
      cnt := arr;
    }

    /** One timer's turn in the tick interrupt. */
    method OnTick()
      modifies this
      ensures Value() == Tick(old(Value()))
    {
      if cnten {
        if cnt > 0 {
          cnt := cnt - 1;
        }
        if cnt == 0 {
          fired := fired + 1;
          cnt := arr;
          if !aren {
            cnten := false;
          }
        }
      }
    }
  }

  // ---- Ticks and calls, interleaved ---------------------------------------------------

  /** A tick, or a call. Timers are named by number, in the order they have been created. */
  datatype Op =
    | Millisecond
    | Start(h: nat) | Stop(h: nat) | Reload(h: nat) | Remove(h: nat)
    | New(reload: uint32, autoReloadCmd: byte, startTimer: byte)

  predicate OnTimer(op: Op)
  {
    op.Start? || op.Stop? || op.Reload? || op.Remove?
  }

  function Made(op: Op): TimerValue
    requires op.New?
  {
    TimerValue(op.reload, op.reload, op.autoReloadCmd % 2 == 1, op.startTimer % 2 == 1, 0)
  }

  /** What a tick or a call means for timer number h. */
  function FollowStep(v: TimerValue, h: nat, op: Op): TimerValue
  {
    match op
    case Millisecond => Tick(v)
    case Start(g) => if g == h then v.(cnten := true) else v
    case Stop(g) => if g == h then v.(cnten := false) else v
    case Reload(g) => if g == h then v.(cnt := v.arr) else v
    case _ => v
  }

  function Follow(v: TimerValue, h: nat, ops: seq<Op>): TimerValue
  {
    if ops == [] then v
    else
      var last := |ops| - 1;
      FollowStep(Follow(v, h, ops[..last]), h, ops[last])
  }

  /** All timers ever created, deleted ones included; a call that does not create one for want of
      room still takes a number. */
  function FollowAll(vs: seq<TimerValue>, ops: seq<Op>): (r: seq<TimerValue>)
    ensures |r| >= |vs|
  {
    if ops == [] then vs
    else
      var last := |ops| - 1;
      StepAll(FollowAll(vs, ops[..last]), ops[last])
  }

  function StepAll(vs: seq<TimerValue>, op: Op): (r: seq<TimerValue>)
    ensures |r| == |vs| + if op.New? then 1 else 0
    ensures forall h :: 0 <= h < |vs| ==> r[h] == FollowStep(vs[h], h, op)
    ensures op.New? ==> r[|vs|] == Made(op)
  {
    seq(|vs|, h requires 0 <= h < |vs| => FollowStep(vs[h], h, op)) + if op.New? then [Made(op)] else []
  }

  /** Calls name timers created before, and not deleted before. */
  predicate Sensible(count: nat, ops: seq<Op>)
  {
    ops != [] ==>
      var last := |ops| - 1;
      && Sensible(count, ops[..last])
      && (OnTimer(ops[last]) ==> ops[last].h < Numbers(count, ops[..last]) && Remove(ops[last].h) !in ops[..last])
  }

  /** How many numbers have been given out. */
  function Numbers(count: nat, ops: seq<Op>): (n: nat)
    ensures n >= count
  {
    if ops == [] then count
    else Numbers(count, ops[..|ops| - 1]) + if ops[|ops| - 1].New? then 1 else 0
  }

  lemma {:induction false} FollowAllCounts(vs: seq<TimerValue>, ops: seq<Op>)
    ensures |FollowAll(vs, ops)| == Numbers(|vs|, ops)
  {
    if ops != [] {
      FollowAllCounts(vs, ops[..|ops| - 1]);
    }
  }

  /** What becomes of a timer depends on its own calls and the ticks only. */
  lemma {:induction false} FollowAllAt(vs: seq<TimerValue>, ops: seq<Op>, h: nat)
    requires h < |vs|
    ensures FollowAll(vs, ops)[h] == Follow(vs[h], h, ops)
  {
    if ops != [] {
      FollowAllAt(vs, ops[..|ops| - 1], h);
    }
  }

  lemma FrontSlices(ops: seq<Op>, k: nat)
    requires k < |ops| - 1
    ensures var last := |ops| - 1;
            ops[..last][..k] == ops[..k] && ops[k + 1..][..last - k - 1] == ops[..last][k + 1..]
  {
  }

  /** The same for a timer created during the run, by operation k: it goes its way from there. */
  lemma {:induction false} FollowCreated(vs: seq<TimerValue>, ops: seq<Op>, k: nat)
    requires k < |ops| && ops[k].New?
    ensures var h := Numbers(|vs|, ops[..k]);
            h < |FollowAll(vs, ops)| && FollowAll(vs, ops)[h] == Follow(Made(ops[k]), h, ops[k + 1..])
    decreases |ops|
  {
    var last := |ops| - 1;
    var front, h := ops[..last], Numbers(|vs|, ops[..k]);
    FollowAllCounts(vs, front);
    if k < last {
      FollowCreated(vs, front, k);
      FrontSlices(ops, k);
    }
  }

  /** Whether the timer is enabled, at each tick of a run. */
  function Enabled(v: TimerValue, h: nat, ops: seq<Op>): seq<bool>
  {
    if ops == [] then []
    else
      var last := |ops| - 1;
      Enabled(v, h, ops[..last]) + if ops[last].Millisecond? then [Follow(v, h, ops[..last]).cnten] else []
  }

  lemma {:induction false} FollowIsGated(v: TimerValue, h: nat, ops: seq<Op>)
    requires v.aren && Reload(h) !in ops
    ensures var r := Follow(v, h, ops);
            r.aren && r == GatedTicks(v, Enabled(v, h, ops)).(cnten := r.cnten)
  {
    if ops != [] {
      var last := |ops| - 1;
      assert ops[last] in ops && ops[last] != Reload(h);
      FollowIsGated(v, h, ops[..last]);
      var enable, w := Enabled(v, h, ops[..last]), Follow(v, h, ops[..last]);
      if ops[last].Millisecond? {
        assert (enable + [w.cnten])[..|enable|] == enable;
        assert GatedTicks(v, enable + [w.cnten]) == Tick(w);
      } else {
        assert Enabled(v, h, ops) == enable;
      }
    }
  }

  /** Started and stopped at will, an auto-reload timer that is not reloaded by hand has fired
      once per full period of enabled ticks. */
  lemma FollowPeriods(v: TimerValue, h: nat, ops: seq<Op>)
    requires Loaded(v) && v.aren && Reload(h) !in ops
    ensures var r := Follow(v, h, ops);
            r.fired == v.fired + Count(Enabled(v, h, ops)) / Max(v.arr, 1) && r.arr == v.arr
  {
    FollowIsGated(v, h, ops);
    PeriodsExact(v, Enabled(v, h, ops));
  }

  class TimerTable {
    var count: nat
    const timers: array<Timer?>
    var time: uint32
    var time2: uint32
    /** How often malloc has failed. */
    ghost var denied: nat

    ghost predicate Valid()
      reads this, timers
    {
      && timers.Length == MAX_TIMERS && count <= MAX_TIMERS
      && (forall i :: 0 <= i < count ==> timers[i] != null)
      && (forall i, j :: 0 <= i < j < count ==> timers[i] != timers[j])
    }

    /** The registered timers in table order. */
    ghost function Listed(): (s: seq<Timer?>)
      requires Valid()
      reads this, timers
      ensures |s| == count && forall k :: 0 <= k < |s| ==> s[k] != null
    {
      timers[..count]
    }

    ghost function Members(): set<object>
      requires Valid()
      reads this, timers
    {
      set i | 0 <= i < count :: timers[i]
    }

    constructor ()
      ensures Valid() && fresh(timers) && Listed() == [] && time == 0 && time2 == 0
    {
      count, time, time2, denied := 0, 0, 0, 0;
      timers := new Timer?[MAX_TIMERS](_ => null);
    }

    /** malloc: memory may run out at any time. */
    method Allocate() returns (ok: bool)
      modifies this`denied
      ensures denied == old(denied) + if ok then 0 else 1
    {
      ok := *;
      if !ok {
        denied := denied + 1;
      }
    }

    /** Returns null exactly when the table is full or no memory is left. */
    method Create(reload: uint32, autoReloadCmd: byte, startTimer: byte) returns (t: Timer?)
      requires Valid()
      modifies this`count, this`denied, timers
      ensures Valid()
      ensures t == null ==> Listed() == old(Listed())
      ensures t != null ==> fresh(t) && Listed() == old(Listed()) + [t]
      ensures t != null ==> t.Value() == TimerValue(reload, reload, autoReloadCmd % 2 == 1, startTimer % 2 == 1, 0)
      ensures old(count) == MAX_TIMERS ==> t == null
      ensures denied == old(denied) + if old(count) < MAX_TIMERS && t == null then 1 else 0
    {
      if count >= MAX_TIMERS {
        return null;
      }
      var memory := Allocate();
      if !memory {
        return null;
      }
      t := new Timer(reload, autoReloadCmd, startTimer);
      timers[count] := t;
      count := count + 1;
      assert timers[..count - 1] == old(timers[..count]);
    }

    /** Closes the gap by shifting the rest of the table down. No timer object is touched,
        so every other timer keeps its counters and its phase. */
    method Delete(timer: Timer)
      requires Valid()
      modifies this`count, timers
      ensures Valid()
      ensures timer !in old(Listed()) ==> Listed() == old(Listed())
      ensures forall k :: 0 <= k < |old(Listed())| && old(Listed())[k] == timer ==>
                Listed() == old(Listed())[..k] + old(Listed())[k + 1..]
      ensures timer !in Listed()
    {
      var i := 0;
      while i < count && timers[i] != timer
        invariant 0 <= i <= count
        invariant forall k :: 0 <= k < i ==> timers[k] != timer
      {
        i := i + 1;
      }
      if i == count {
        return;
      }
      ghost var s, at := Listed(), i;
      while i < count - 1
        invariant at <= i < count == |s|
        invariant forall k :: 0 <= k < at ==> timers[k] == s[k]
        invariant forall k :: at <= k < i ==> timers[k] == s[k + 1]
        invariant forall k :: i < k < count ==> timers[k] == s[k]
      {
        timers[i] := timers[i + 1];
        i := i + 1;
      }
      count := count - 1;
      assert Listed() == s[..at] + s[at + 1..];
      assert forall k :: 0 <= k < |s| && s[k] == timer ==> k == at;
    }

    /** HAL_IncTick. */
    method IncTick()
      requires Valid()
      modifies this`time, this`time2, Members()
      ensures Valid() && Listed() == old(Listed())
      ensures time == ToU32(old(time) + 1) && time2 == Max(0, old(time2) - 1)
      ensures forall t :: t in Listed() ==> t.Value() == Tick(old(t.Value()))
    {
      time := ToU32(time + 1);
      if time2 > 0 {
        time2 := time2 - 1;
      }
      var i := 0;
      while i < count
        invariant 0 <= i <= count
        invariant time == ToU32(old(time) + 1) && time2 == Max(0, old(time2) - 1)
        invariant forall k :: 0 <= k < i ==> timers[k].Value() == Tick(old(timers[k].Value()))
        invariant forall k :: i <= k < count ==> timers[k].Value() == old(timers[k].Value())
      {
        timers[i].OnTick();
        i := i + 1;
      }
    }

    /** n ticks with no other call in between. */
    method Run(n: nat)
      requires Valid()
      modifies this`time, this`time2, Members()
      ensures Valid() && Listed() == old(Listed())
      ensures forall t :: t in Listed() ==> t.Value() == Ticks(old(t.Value()), n)
      ensures forall t :: t in Listed() && old(Loaded(t.Value()) && t.aren && t.cnten) ==>
                t.fired == old(t.fired) + n / Max(t.arr, 1)
      ensures forall t :: t in Listed() && old(Loaded(t.Value()) && !t.aren && t.cnten) ==>
                t.fired == old(t.fired) + (if n >= Max(t.arr, 1) then 1 else 0)
    {
      var i := 0;
      while i < n
        invariant 0 <= i <= n
        invariant Valid() && Listed() == old(Listed())
        invariant forall t :: t in Listed() ==> t.Value() == Ticks(old(t.Value()), i)
      {
        IncTick();
        i := i + 1;
      }
      forall t | t in Listed() && old(Loaded(t.Value()) && t.cnten)
        ensures t.fired == old(t.fired) +
                  (if old(t.aren) then n / Max(t.arr, 1) else if n >= Max(t.arr, 1) then 1 else 0)
        ensures t.arr == old(t.arr)
      {
        if old(t.aren) {
          GatedIsTicks(old(t.Value()), n);
          PeriodsExact(old(t.Value()), seq(n, _ => true));
        } else {
          OneShot(old(t.Value()), n);
        }
      }
    }

    ghost function Values(): (vs: seq<TimerValue>)
      requires Valid()
      reads this, timers, Members()
      ensures |vs| == count && forall i :: 0 <= i < count ==> vs[i] == timers[i].Value()
    {
      var ts := Listed();
      seq(|ts|, i requires 0 <= i < |ts| && ts[i] != null reads ts => ts[i].Value())
    }

    /** The timers in `handles` that have been created and not deleted are those of the table, and
        have the values `vs` says; nothing in the table has been forgotten. */
    ghost predicate Tracks(handles: seq<Timer?>, vs: seq<TimerValue>, ops: seq<Op>)
      reads this, timers, set t | t in handles
    {
      && Valid() && |handles| == |vs|
      && (forall h :: 0 <= h < |handles| && handles[h] != null && Remove(h) !in ops ==>
            handles[h] in Listed() && handles[h].Value() == vs[h])
      && (forall g, h :: 0 <= g < h < |handles| && handles[h] != null ==> handles[g] != handles[h])
      && (forall t :: t in Listed() ==> t in handles)
    }

    /** Any interleaving of ticks and calls, on the timers of the table and on those created
        meanwhile. As in the source, a timer that has been deleted is not used again; a create
        that has failed gives null, and nothing is called for it. Every timer not deleted ends up
        where its own calls and the ticks take it, whatever is done to the others. */
    method RunOps(ops: seq<Op>) returns (handles: seq<Timer?>)
      requires Valid() && Sensible(count, ops)
      modifies this, timers, Members()
      ensures Valid() && |handles| == Numbers(old(count), ops)
      ensures old(Listed()) <= handles
      ensures forall h :: old(count) <= h < |handles| ==> handles[h] == null || fresh(handles[h])
      ensures |FollowAll(old(Values()), ops)| == |handles|
      ensures forall h :: 0 <= h < |handles| && handles[h] != null && Remove(h) !in ops ==>
                handles[h] in Listed() && handles[h].Value() == FollowAll(old(Values()), ops)[h]
    {
      hide Tracks, Sensible, FollowAll, StepAll, Values, OnTimer, Numbers;
      handles := timers[..count];
      ghost var table := handles;
      ghost var vs, now, done := Values(), Values(), ops[..0];
      TracksAtFirst();
      NoOps(vs);
      for i := 0 to |ops|
        invariant done == ops[..i] && now == FollowAll(vs, done)
        invariant Tracks(handles, now, done)
        invariant |handles| >= |table| && forall h :: 0 <= h < |table| ==> handles[h] == table[h]
        invariant forall h :: old(count) <= h < |handles| ==> handles[h] == null || fresh(handles[h])
      {
        FollowNext(vs, ops, i);
        SensibleAt(old(count), ops, i);
        FollowAllCounts(vs, done);
        TracksCounts(handles, now, done);
        assert forall h :: 0 <= h < |table| ==> table[h] in old(Members());
        handles := Do(ops[i], handles, now, done);
        now, done := StepAll(now, ops[i]), ops[..i + 1];
      }
      assert done == ops;
      FollowAllCounts(vs, ops);
      TracksCounts(handles, now, ops);
    }

    lemma TracksAtFirst()
      requires Valid()
      ensures Tracks(timers[..count], Values(), [])
    {
    }

    lemma TracksCounts(handles: seq<Timer?>, vs: seq<TimerValue>, ops: seq<Op>)
      requires Tracks(handles, vs, ops)
      ensures Valid() && |handles| == |vs|
      ensures forall h :: 0 <= h < |handles| && handles[h] != null && Remove(h) !in ops ==>
                handles[h] in Listed() && handles[h].Value() == vs[h]
    {
    }

    method Do(op: Op, handles: seq<Timer?>, ghost vs: seq<TimerValue>, ghost done: seq<Op>)
      returns (handles': seq<Timer?>)
      requires Tracks(handles, vs, done)
      requires OnTimer(op) ==> op.h < |handles| && Remove(op.h) !in done
      modifies this, timers, handles
      ensures Tracks(handles', StepAll(vs, op), done + [op])
      ensures handles <= handles' && |handles'| <= |handles| + 1
      ensures |handles'| > |handles| ==> handles'[|handles|] == null || fresh(handles'[|handles|])
    {
      hide Tracks, StepAll;
      handles' := handles;
      match op
      case Millisecond =>
        Elapse(handles, vs, done);
      case Remove(h) =>
        DeleteHandle(h, handles, vs, done);
      case New(reload, autoReloadCmd, startTimer) =>
        handles' := CreateHandle(op, handles, vs, done);
      case _ =>
        Call(op, handles, vs, done);
    }

    method Call(op: Op, handles: seq<Timer?>, ghost vs: seq<TimerValue>, ghost done: seq<Op>)
      requires Tracks(handles, vs, done)
      requires (op.Start? || op.Stop? || op.Reload?) && op.h < |handles| && Remove(op.h) !in done
      modifies handles
      ensures Tracks(handles, StepAll(vs, op), done + [op])
    {
      hide Tick;
      var t := handles[op.h];
      if t != null {
        match op {
          case Start(h) =>
            t.Start();
          case Stop(h) =>
            t.Stop();
          case Reload(h) =>
            t.Reset();
        }
      }
    }

    method CreateHandle(op: Op, handles: seq<Timer?>, ghost vs: seq<TimerValue>, ghost done: seq<Op>)
      returns (handles': seq<Timer?>)
      requires Tracks(handles, vs, done) && op.New?
      modifies this`count, this`denied, timers
      ensures Tracks(handles', StepAll(vs, op), done + [op])
      ensures exists t :: handles' == handles + [t] && (t == null || fresh(t))
    {
      hide Tick;
      var t := Create(op.reload, op.autoReloadCmd, op.startTimer);
      handles' := handles + [t];
    }

    method Elapse(handles: seq<Timer?>, ghost vs: seq<TimerValue>, ghost done: seq<Op>)
      requires Tracks(handles, vs, done)
      modifies this, handles
      ensures Tracks(handles, StepAll(vs, Millisecond), done + [Millisecond])
    {
      hide Tick;
      assert forall o :: o in Members() ==> o in Listed();
      IncTick();
    }

    method DeleteHandle(h: nat, handles: seq<Timer?>, ghost vs: seq<TimerValue>, ghost done: seq<Op>)
      requires Tracks(handles, vs, done) && h < |handles| && Remove(h) !in done
      modifies this, timers
      ensures Tracks(handles, StepAll(vs, Remove(h)), done + [Remove(h)])
    {
      hide Tick;
      if handles[h] != null {
        ghost var before := Listed();
        Delete(handles[h]);
        ghost var k :| 0 <= k < |before| && before[k] == handles[h];
        assert forall j :: 0 <= j < |before| && j != k ==> before[j] in before[..k] + before[k + 1..];
      }
    }
  }

  lemma NoOps(vs: seq<TimerValue>)
    ensures FollowAll(vs, []) == vs
  {
  }

  lemma FollowNext(vs: seq<TimerValue>, ops: seq<Op>, i: nat)
    requires i < |ops|
    ensures ops[..i + 1] == ops[..i] + [ops[i]]
    ensures FollowAll(vs, ops[..i + 1]) == StepAll(FollowAll(vs, ops[..i]), ops[i])
  {
    assert ops[..i + 1][..i] == ops[..i];
  }

  lemma {:induction false} SensibleAt(count: nat, ops: seq<Op>, i: nat)
    requires Sensible(count, ops) && i < |ops|
    ensures OnTimer(ops[i]) ==> ops[i].h < Numbers(count, ops[..i]) && Remove(ops[i].h) !in ops[..i]
    decreases |ops|
  {
    var last := |ops| - 1;
    if i < last {
      SensibleAt(count, ops[..last], i);
      assert ops[..last][..i] == ops[..i];
    }
  }
}

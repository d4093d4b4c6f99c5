/** The push-button debouncer of tm_stm32_button.c. */
module Buttons {
  import opened Bytes

  datatype State = Start | Debounce | Pressed | WaitRelease

  datatype Event = OnPressed | Normal | Long

  datatype Settings = Settings(activeLevel: byte, debounceTime: uint16, normalTime: uint16, longTime: uint16)

  datatype ButtonValue = ButtonValue(state: State, startTime: uint32)

  /** One look at the pin: the system time and the level read. */
  datatype Sample = Sample(now: uint32, status: uint32)

  datatype Result = Result(value: ButtonValue, events: seq<Event>)

  predicate Held(c: Settings, s: Sample)
  {
    s.status == c.activeLevel
  }

  /** Milliseconds between two readings of the 32-bit clock. */
  function Elapsed(from: uint32, to: uint32): uint32
  {
    ToU32(to - from)
  }

  /** After d milliseconds it reads d, also when the clock has passed zero in between. */
  lemma ElapsedAcrossZero(from: uint32, d: uint32)
    ensures Elapsed(from, ToU32(from + d)) == d
  {
    var later: int := from + d;
    if later >= 0x1_0000_0000 {
      assert ToU32(later) == later - 0x1_0000_0000;
    }
  }

  /** What one sample does, branch by branch of the state the button was in. */
  function Step(c: Settings, b: ButtonValue, s: Sample): Result
  {
    match b.state
    case Start =>
      // A press starts here; its own sample can only pass a debounce time with no elapsed time.
      if Held(c, s) then Result(ButtonValue(Debounce, s.now), []) else Result(b, [])
    case Debounce =>
      if !Held(c, s) then Result(b.(state := Start), [])
      else if Elapsed(b.startTime, s.now) <= c.debounceTime then Result(b, [])
      else if Elapsed(b.startTime, s.now) <= c.longTime then Result(b.(state := Pressed), [OnPressed])
      else Result(b.(state := WaitRelease), [OnPressed, Long])
    case Pressed =>
      if Held(c, s) then
        if Elapsed(b.startTime, s.now) <= c.longTime then Result(b, [])
        else Result(b.(state := WaitRelease), [Long])
      else if Elapsed(b.startTime, s.now) <= c.normalTime then Result(b.(state := Start), [])
      else Result(b.(state := Start), [Normal])
    case WaitRelease =>
      if Held(c, s) then Result(b, []) else Result(b.(state := Start), [])
  }

  class Button {
    const settings: Settings
    var state: State
    var startTime: uint32
    var lastStatus: byte
    ghost var trace: seq<Event>

    constructor (c: Settings)
      ensures settings == c && state == Start && trace == []
    {
      settings, state, trace := c, Start, [];
    }

    ghost function Value(): ButtonValue
      reads this
    {
      ButtonValue(state, startTime)
    }

    /** Calls the button handler. */
    method Handle(e: Event)
      modifies this`trace
      ensures trace == old(trace) + [e]
    {
      trace := trace + [e];
    }

    /** TM_BUTTON_INT_CheckButton: the four stages are tested one after the other, so a
        sample can pass through several. */
    method Check(now: uint32, status: uint32)
      modifies this
      ensures var r := Step(settings, old(Value()), Sample(now, status));
              Value() == r.value && trace == old(trace) + r.events
      ensures lastStatus == ToU8(status)
    {
      var active: uint32 := settings.activeLevel;
      if state == Start {
        if status == active {
          state := Debounce;
          startTime := now;
        }
      }
      if state == Debounce {
        if status == active {
          if Elapsed(startTime, now) > settings.debounceTime {
            state := Pressed;
            Handle(OnPressed);
          }
        } else {
          state := Start;
        }
      }
      if state == Pressed {
        if status == active {
          if Elapsed(startTime, now) > settings.longTime {
            Handle(Long);
            state := WaitRelease;
          }
        } else {
          if Elapsed(startTime, now) > settings.normalTime {
            Handle(Normal);
            state := WaitRelease;
          } else {
            state := Start;
          }
        }
      }
      if state == WaitRelease {
        if status != active {
          state := Start;
        }
      }
      lastStatus := ToU8(status);
    }
  }

  /** TM_BUTTON_Update: every registered button looks at its own pin. */
  method Update(buttons: seq<Button>, samples: seq<Sample>)
    requires |samples| == |buttons|
    requires forall i, j :: 0 <= i < j < |buttons| ==> buttons[i] != buttons[j]
    modifies buttons
    ensures forall i :: 0 <= i < |buttons| ==>
              var r := Step(buttons[i].settings, old(buttons[i].Value()), samples[i]);
              buttons[i].Value() == r.value && buttons[i].trace == old(buttons[i].trace) + r.events
  {
    for k := 0 to |buttons|
      invariant forall i :: 0 <= i < k ==>
                  var r := Step(buttons[i].settings, old(buttons[i].Value()), samples[i]);
                  buttons[i].Value() == r.value && buttons[i].trace == old(buttons[i].trace) + r.events
      invariant forall i :: k <= i < |buttons| ==>
                  buttons[i].Value() == old(buttons[i].Value()) && buttons[i].trace == old(buttons[i].trace)
    {
      buttons[k].Check(samples[k].now, samples[k].status);
    }
  }

  // ---- Whole runs -------------------------------------------------------------

  /** The button after the first `n` samples of a run that starts at rest. */
  function After(c: Settings, run: seq<Sample>, n: nat): ButtonValue
    requires n <= |run|
  {
    if n == 0 then ButtonValue(Start, 0) else Step(c, After(c, run, n - 1), run[n - 1]).value
  }

  /** The events raised by sample number `n`. */
  function EventsAt(c: Settings, run: seq<Sample>, n: nat): seq<Event>
    requires n < |run|
  {
    Step(c, After(c, run, n), run[n]).events
  }

  function Trace(c: Settings, run: seq<Sample>, n: nat): seq<Event>
    requires n <= |run|
  {
    if n == 0 then [] else Trace(c, run, n - 1) + EventsAt(c, run, n - 1)
  }

  /** (OnPressed (Normal | Long)?)* */
  predicate Grammatical(events: seq<Event>)
  {
    forall k :: 0 <= k < |events| && events[k] != OnPressed ==> k > 0 && events[k - 1] == OnPressed
  }

  /** The button has been held at every sample from `from` up to (not including) `to`. */
  predicate HeldThroughout(c: Settings, run: seq<Sample>, from: nat, to: nat)
    requires to <= |run|
  {
    forall k :: from <= k < to ==> Held(c, run[k])
  }

  /** A press begins with sample `j`: the button is held, and before it was not, or the run
      had only just begun. */
  predicate PressBegins(c: Settings, run: seq<Sample>, j: nat)
    requires j < |run|
  {
    Held(c, run[j]) && (j == 0 || !Held(c, run[j - 1]))
  }

  /** What a button with the value `b` and the events so far means for the first n samples. */
  ghost predicate MeaningOf(c: Settings, run: seq<Sample>, n: nat, b: ButtonValue, events: seq<Event>)
    requires n <= |run|
  {
    match b.state
    case Start => n == 0 || !Held(c, run[n - 1])
    case Debounce => exists j: nat :: HeldSince(c, run, j, n) && b.startTime == run[j].now
    case Pressed =>
      && events != [] && events[|events| - 1] == OnPressed
      && exists j: nat :: HeldSince(c, run, j, n) && b.startTime == run[j].now
    case WaitRelease => exists j: nat :: HeldSince(c, run, j, n)
  }

  /** A press begins with sample `j` and goes on up to (not including) sample `n`. */
  ghost predicate HeldSince(c: Settings, run: seq<Sample>, j: nat, n: nat)
    requires n <= |run|
  {
    j < n && PressBegins(c, run, j) && HeldThroughout(c, run, j, n)
  }

  ghost predicate Meaning(c: Settings, run: seq<Sample>, n: nat)
    requires n <= |run|
  {
    MeaningOf(c, run, n, After(c, run, n), Trace(c, run, n))
  }

  lemma HeldOnceMore(c: Settings, run: seq<Sample>, j: nat, n: nat)
    requires n < |run| && HeldSince(c, run, j, n) && Held(c, run[n])
    ensures HeldSince(c, run, j, n + 1)
  {
  }

  lemma PressStarts(c: Settings, run: seq<Sample>, j: nat)
    requires j < |run| && Held(c, run[j]) && (j == 0 || !Held(c, run[j - 1]))
    ensures HeldSince(c, run, j, j + 1)
  {
  }

  /** The next sample keeps the meaning, whatever the state. */
  lemma MeaningGoesOn(c: Settings, run: seq<Sample>, n: nat, b: ButtonValue, events: seq<Event>)
    requires n < |run| && MeaningOf(c, run, n, b, events)
    ensures var r := Step(c, b, run[n]); MeaningOf(c, run, n + 1, r.value, events + r.events)
  {
    hide Held, PressBegins, HeldThroughout, Elapsed;
    if b.state != Start && Held(c, run[n]) {
      var j: nat :| HeldSince(c, run, j, n) && (b.state != WaitRelease ==> b.startTime == run[j].now);
      HeldOnceMore(c, run, j, n);
    } else if b.state == Start && Held(c, run[n]) {
      PressStarts(c, run, n);
    }
  }

  lemma {:induction false} MeaningHolds(c: Settings, run: seq<Sample>, n: nat)
    requires n <= |run|
    ensures Meaning(c, run, n)
  {
    if n > 0 {
      MeaningHolds(c, run, n - 1);
      MeaningGoesOn(c, run, n - 1, After(c, run, n - 1), Trace(c, run, n - 1));
    }
  }

  /** What a sample may add to the events so far. */
  predicate CanFollow(events: seq<Event>, more: seq<Event>)
  {
    || more == [] || more == [OnPressed] || more == [OnPressed, Long]
    || (|more| == 1 && events != [] && events[|events| - 1] == OnPressed)
  }

  lemma GrammarGrows(events: seq<Event>, more: seq<Event>)
    requires Grammatical(events) && CanFollow(events, more)
    ensures Grammatical(events + more)
  {
  }

  lemma MeaningAllows(c: Settings, run: seq<Sample>, n: nat)
    requires n < |run| && Meaning(c, run, n)
    ensures CanFollow(Trace(c, run, n), EventsAt(c, run, n))
  {
    hide Held, HeldSince, Elapsed, After, Trace;
  }

  lemma TraceGrows(c: Settings, run: seq<Sample>, n: nat)
    requires n < |run|
    ensures Trace(c, run, 0) == [] && Trace(c, run, n + 1) == Trace(c, run, n) + EventsAt(c, run, n)
  {
    hide EventsAt;
  }

  /** The events of every run form (OnPressed (Normal | Long)?)*. */
  lemma {:induction false} TraceGrammatical(c: Settings, run: seq<Sample>, n: nat)
    requires n <= |run|
    ensures Grammatical(Trace(c, run, n))
  {
    if n > 0 {
      hide *;
      TraceGrammatical(c, run, n - 1);
      MeaningHolds(c, run, n - 1);
      MeaningAllows(c, run, n - 1);
      TraceGrows(c, run, n - 1);
      GrammarGrows(Trace(c, run, n - 1), EventsAt(c, run, n - 1));
    }
  }

  /** Long is raised only when the button has been held at every sample since the press
      began, and that was more than longTime ago. */
  lemma LongMeansHeld(c: Settings, run: seq<Sample>, n: nat)
    requires n < |run| && Long in EventsAt(c, run, n)
    ensures exists j: nat :: HeldSince(c, run, j, n + 1) && Elapsed(run[j].now, run[n].now) > c.longTime
  {
    MeaningHolds(c, run, n);
    var b := After(c, run, n);
    var j: nat :| HeldSince(c, run, j, n) && b.startTime == run[j].now;
    HeldOnceMore(c, run, j, n);
  }

  /** OnPressed likewise, after more than the debounce time. */
  lemma OnPressedMeansHeld(c: Settings, run: seq<Sample>, n: nat)
    requires n < |run| && OnPressed in EventsAt(c, run, n)
    ensures exists j: nat :: HeldSince(c, run, j, n + 1) && Elapsed(run[j].now, run[n].now) > c.debounceTime
  {
    MeaningHolds(c, run, n);
    var b := After(c, run, n);
    var j: nat :| HeldSince(c, run, j, n) && b.startTime == run[j].now;
    HeldOnceMore(c, run, j, n);
  }

  /** Normal is raised on a release, of a press that began more than normalTime ago and was
      held until then. */
  lemma NormalMeansReleased(c: Settings, run: seq<Sample>, n: nat)
    requires n < |run| && Normal in EventsAt(c, run, n)
    ensures !Held(c, run[n])
    ensures exists j: nat :: HeldSince(c, run, j, n) && Elapsed(run[j].now, run[n].now) > c.normalTime
  {
    MeaningHolds(c, run, n);
  }

  /** While the button stays held after an OnPressed, no second one comes: between two there
      is a sample that finds it released. */
  lemma {:induction false} NoSecondPress(c: Settings, run: seq<Sample>, i: nat, n: nat)
    requires i < n < |run|
    requires OnPressed in EventsAt(c, run, i) && HeldThroughout(c, run, i, n + 1)
    ensures OnPressed !in EventsAt(c, run, n)
    ensures After(c, run, n + 1).state.Pressed? || After(c, run, n + 1).state.WaitRelease?
    decreases n
  {
    if n > i + 1 {
      NoSecondPress(c, run, i, n - 1);
    }
    assert Held(c, run[i]) && Held(c, run[n]);
  }

  /** Every press that lasts long enough is reported, as soon as a sample shows it. */
  lemma PressIsReported(c: Settings, run: seq<Sample>, j: nat, n: nat)
    requires j < n < |run|
    requires PressBegins(c, run, j) && HeldThroughout(c, run, j, n + 1)
    requires forall k :: j <= k < n ==> Elapsed(run[j].now, run[k].now) <= c.debounceTime
    requires Elapsed(run[j].now, run[n].now) > c.debounceTime
    ensures OnPressed in EventsAt(c, run, n)
  {
    MeaningHolds(c, run, j);
    StillDebouncing(c, run, j, n);
    assert Held(c, run[n]);
  }

  lemma {:induction false} StillDebouncing(c: Settings, run: seq<Sample>, j: nat, n: nat)
    requires j < n <= |run| && After(c, run, j).state == Start
    requires HeldThroughout(c, run, j, n)
    requires forall k :: j <= k < n ==> Elapsed(run[j].now, run[k].now) <= c.debounceTime
    ensures After(c, run, n) == ButtonValue(Debounce, run[j].now)
    decreases n
  {
    assert Held(c, run[n - 1]);
    if n > j + 1 {
      StillDebouncing(c, run, j, n - 1);
    }
  }

  /** By sample n a press that began with sample j has lasted longer than the debounce time. */
  predicate Debounced(c: Settings, run: seq<Sample>, j: nat, n: nat)
    requires n <= |run|
  {
    exists k :: j <= k < n && Elapsed(run[j].now, run[k].now) > c.debounceTime
  }

  /** No sample before n has come so late in the press that began with sample j that the long
      press is reported. */
  predicate NotYetLong(c: Settings, run: seq<Sample>, j: nat, n: nat)
    requires n <= |run|
  {
    forall k :: j <= k < n ==> Elapsed(run[j].now, run[k].now) <= Max(c.debounceTime, c.longTime)
  }

  lemma {:induction false} StillPressed(c: Settings, run: seq<Sample>, j: nat, n: nat)
    requires j < n <= |run| && After(c, run, j).state == Start
    requires HeldThroughout(c, run, j, n) && NotYetLong(c, run, j, n)
    ensures After(c, run, n) == ButtonValue(if Debounced(c, run, j, n) then Pressed else Debounce, run[j].now)
    decreases n
  {
    assert Held(c, run[n - 1]) && Elapsed(run[j].now, run[n - 1].now) <= Max(c.debounceTime, c.longTime);
    if n > j + 1 {
      StillPressed(c, run, j, n - 1);
    }
    assert Debounced(c, run, j, n) <==>
             (n > j + 1 && Debounced(c, run, j, n - 1)) || Elapsed(run[j].now, run[n - 1].now) > c.debounceTime;
  }

  /** Every press held past the long time, and past the debounce time should that be longer, gets
      its Long at the first sample that shows it. */
  lemma LongIsReported(c: Settings, run: seq<Sample>, j: nat, n: nat)
    requires j < n < |run|
    requires PressBegins(c, run, j) && HeldThroughout(c, run, j, n + 1) && NotYetLong(c, run, j, n)
    requires Elapsed(run[j].now, run[n].now) > Max(c.debounceTime, c.longTime)
    ensures Long in EventsAt(c, run, n)
  {
    MeaningHolds(c, run, j);
    StillPressed(c, run, j, n);
    assert Held(c, run[n]);
  }

  /** A press that has outlasted the debounce time, and is released before the long time, gets its
      Normal with the sample that finds it released exactly if the normal time has passed. */
  lemma NormalIsReported(c: Settings, run: seq<Sample>, j: nat, n: nat)
    requires j < n < |run|
    requires PressBegins(c, run, j) && HeldThroughout(c, run, j, n) && NotYetLong(c, run, j, n)
    requires Debounced(c, run, j, n) && !Held(c, run[n])
    ensures EventsAt(c, run, n) == if Elapsed(run[j].now, run[n].now) > c.normalTime then [Normal] else []
  {
    MeaningHolds(c, run, j);
    StillPressed(c, run, j, n);
  }
}

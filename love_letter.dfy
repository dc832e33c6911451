/** The envelope and letter reveal. A click toggles between closed and open;
    part of each transition happens at once and part in a one-shot timer
    callback. Callbacks run one at a time on a single thread, so the page is a
    sequential event system: a click, or the earliest pending timer firing. */
module Letter {

  /** The delay before the letter is shown after a click that opens. */
  const RevealDelay: nat := 300
  /** The delay before the envelope closes after a click that closes. */
  const CloseDelay: nat := 500

  /** The two deferred callbacks. */
  datatype Callback =
    | ShowLetter     // add 'show' to the letter, then isOpen := true
    | CloseEnvelope  // remove 'opened' from the envelope, then isOpen := false

  /** A pending one-shot timer: when it is due (virtual milliseconds) and what it runs. */
  datatype Timer = Timer(due: int, callback: Callback)

  /** Everything the reveal owns: the `isOpen` field, whether the envelope's
      class list holds 'opened', whether the letter's holds 'show', the virtual
      clock, and the pending timers in the order they will fire. Class lists are
      sets, so adding a class twice or removing a missing one is one boolean. */
  datatype Snapshot = Snapshot(isOpen: bool, envelopeOpened: bool, letterShown: bool, clock: int, pending: seq<Timer>)

  /** The state after construction: closed, no class set, nothing pending. */
  function Closed(clock: int): Snapshot {
    Snapshot(false, false, false, clock, [])
  }

  predicate Sorted(q: seq<Timer>) {
    forall i, j :: 0 <= i < j < |q| ==> q[i].due <= q[j].due
  }

  /** Timers fire in due order and none is due before the clock. */
  predicate Valid(s: Snapshot) {
    Sorted(s.pending) && forall i :: 0 <= i < |s.pending| ==> s.clock <= s.pending[i].due
  }

  /** The model lets timers fire exactly at their due instant, so a click at
      `now` comes after every timer due before `now` has run. */
  predicate CanClick(s: Snapshot, now: int) {
    s.clock <= now && forall i :: 0 <= i < |s.pending| ==> now <= s.pending[i].due
  }

  predicate AllAre(q: seq<Timer>, c: Callback) {
    forall i :: 0 <= i < |q| ==> q[i].callback == c
  }

  predicate Includes(q: seq<Timer>, c: Callback) {
    exists i :: 0 <= i < |q| && q[i].callback == c
  }

  /** Where setTimeout places a new timer due at `due`: after every pending
      timer due no later than it (equal due times fire in scheduling order),
      before every timer due later. */
  function InsertPos(q: seq<Timer>, due: int): (k: nat)
    ensures k <= |q|
    ensures forall i :: 0 <= i < k ==> q[i].due <= due
    ensures Sorted(q) ==> forall i :: k <= i < |q| ==> due < q[i].due
  {
    if q == [] || due < q[0].due then 0
    else
      var k := 1 + InsertPos(q[1..], due);
      assert forall i :: 1 <= i < |q| ==> q[i] == q[1..][i - 1];
      k
  }

  /** setTimeout: the pending timers with one more, still in firing order. */
  function Schedule(q: seq<Timer>, t: Timer): (r: seq<Timer>)
    requires Sorted(q)
    ensures Sorted(r)
    ensures multiset(r) == multiset(q) + multiset{t}
    ensures forall i :: 0 <= i < |q| && q[i].due <= t.due ==> r[i] == q[i]
    ensures forall i :: 0 <= i < |q| && t.due < q[i].due ==> r[i + 1] == q[i]
  {
    var k := InsertPos(q, t.due);
    assert q == q[..k] + q[k..];
    q[..k] + [t] + q[k..]
  }

  /** Every timer in Schedule(q, t) is t or was already in q. */
  lemma ScheduleMembers(q: seq<Timer>, t: Timer, i: nat)
    requires Sorted(q) && i < |Schedule(q, t)|
    ensures Schedule(q, t)[i] == t || Schedule(q, t)[i] in q
  {
    var r := Schedule(q, t);
    assert r[i] in multiset(r);
  }

  /** openLetter at `now`: 'opened' is added at once; showing the letter and
      setting isOpen wait for a timer 300 ms later. */
  function Open(s: Snapshot, now: int): (r: Snapshot)
    requires Valid(s) && CanClick(s, now)
    ensures Valid(r) && r.clock == now
    ensures r.envelopeOpened && r.isOpen == s.isOpen && r.letterShown == s.letterShown
    ensures multiset(r.pending) == multiset(s.pending) + multiset{Timer(now + RevealDelay, ShowLetter)}
    ensures r.pending == Schedule(s.pending, Timer(now + RevealDelay, ShowLetter))
  {
    s.(envelopeOpened := true, clock := now,
       pending := Schedule(s.pending, Timer(now + RevealDelay, ShowLetter)))
  }

  /** closeLetter at `now`: 'show' is removed at once; closing the envelope and
      clearing isOpen wait for a timer 500 ms later. */
  function Close(s: Snapshot, now: int): (r: Snapshot)
    requires Valid(s) && CanClick(s, now)
    ensures Valid(r) && r.clock == now
    ensures !r.letterShown && r.isOpen == s.isOpen && r.envelopeOpened == s.envelopeOpened
    ensures multiset(r.pending) == multiset(s.pending) + multiset{Timer(now + CloseDelay, CloseEnvelope)}
    ensures r.pending == Schedule(s.pending, Timer(now + CloseDelay, CloseEnvelope))
  {
    s.(letterShown := false, clock := now,
       pending := Schedule(s.pending, Timer(now + CloseDelay, CloseEnvelope)))
  }

  /** toggleLetter: open when isOpen is false, close otherwise. */
  function Toggle(s: Snapshot, now: int): (r: Snapshot)
    requires Valid(s) && CanClick(s, now)
    ensures Valid(r) && r.clock == now && r.isOpen == s.isOpen && |r.pending| == |s.pending| + 1
    ensures !s.isOpen ==> r.envelopeOpened && r.letterShown == s.letterShown
    ensures !s.isOpen ==> multiset(r.pending) == multiset(s.pending) + multiset{Timer(now + RevealDelay, ShowLetter)}
    ensures s.isOpen ==> !r.letterShown && r.envelopeOpened == s.envelopeOpened
    ensures s.isOpen ==> multiset(r.pending) == multiset(s.pending) + multiset{Timer(now + CloseDelay, CloseEnvelope)}
    ensures !s.isOpen ==> r.pending == Schedule(s.pending, Timer(now + RevealDelay, ShowLetter))
    ensures s.isOpen ==> r.pending == Schedule(s.pending, Timer(now + CloseDelay, CloseEnvelope))
  {
    if !s.isOpen then Open(s, now) else Close(s, now)
  }

  /** The earliest pending timer fires: the clock moves to its due time and its
      callback changes its own class flag and isOpen, nothing else. */
  function Fire(s: Snapshot): (r: Snapshot)
    requires Valid(s) && s.pending != []
    ensures Valid(r)
    ensures r.pending == s.pending[1..] && r.clock == s.pending[0].due
    ensures forall i :: 0 <= i < |s.pending| ==> r.clock <= s.pending[i].due
    ensures s.pending[0].callback == ShowLetter ==> r.letterShown && r.isOpen && r.envelopeOpened == s.envelopeOpened
    ensures s.pending[0].callback == CloseEnvelope ==> !r.envelopeOpened && !r.isOpen && r.letterShown == s.letterShown
  {
    var t := s.pending[0];
    var next := s.(clock := t.due, pending := s.pending[1..]);
    match t.callback
    case ShowLetter => next.(letterShown := true, isOpen := true)
    case CloseEnvelope => next.(envelopeOpened := false, isOpen := false)
  }

  datatype Option<T> = None | Some(value: T)

  /** What can happen next on the page's single thread. */
  datatype Event = Click(at: int) | TimerFires

  /** Run a trace of events from `s`: a click at its instant, or the earliest
      pending timer. None when the trace cannot happen (a click earlier than a
      timer that is still pending, or a timer event with none pending). */
  function Run(s: Snapshot, events: seq<Event>): (r: Option<Snapshot>)
    requires Valid(s)
    ensures r.Some? ==> Valid(r.value)
    ensures r.Some? && events != [] && events[|events| - 1].Click? ==> r.value.clock == events[|events| - 1].at
    decreases |events|
  {
    if events == [] then Some(s)
    else
      var rest := events[1..];
      assert rest != [] ==> rest[|rest| - 1] == events[|events| - 1];
      match events[0]
      case Click(now) =>
        if CanClick(s, now) then
          var next := Toggle(s, now);
          assert Valid(next) && next.clock == now;
          Run(next, rest)
        else None
      case TimerFires =>
        if s.pending != [] then
          var next := Fire(s);
          assert Valid(next);
          Run(next, rest)
        else None
  }

  /** Let every pending timer fire, earliest first. */
  function Settle(s: Snapshot): (r: Snapshot)
    requires Valid(s)
    ensures Valid(r) && r.pending == []
    ensures s.pending == [] ==> r == s
    ensures s.pending != [] ==> r.clock == s.pending[|s.pending| - 1].due
    decreases |s.pending|
  {
    if s.pending == [] then s else Settle(Fire(s))
  }

  /** Letting every pending timer fire, whatever their kinds: the last timer to
      fire decides isOpen, the letter ends shown when it was shown or any
      reveal is pending, and the envelope ends opened only when it was opened
      and no close is pending. */
  lemma {:induction false} SettleFlags(s: Snapshot)
    requires Valid(s) && s.pending != []
    ensures Settle(s).isOpen == (s.pending[|s.pending| - 1].callback == ShowLetter)
    ensures Settle(s).letterShown == (s.letterShown || Includes(s.pending, ShowLetter))
    ensures Settle(s).envelopeOpened == (s.envelopeOpened && !Includes(s.pending, CloseEnvelope))
    decreases |s.pending|
  {
    var f := Fire(s);
    var q := s.pending;
    assert Settle(s) == Settle(f);
    forall c: Callback
      ensures Includes(q, c) == (q[0].callback == c || Includes(f.pending, c))
    {
      if Includes(q, c) {
        var i :| 0 <= i < |q| && q[i].callback == c;
        if i > 0 {
          assert f.pending[i - 1] == q[i];
        }
      }
      if Includes(f.pending, c) {
        var j :| 0 <= j < |f.pending| && f.pending[j].callback == c;
        assert q[j + 1] == f.pending[j];
      }
    }
    if f.pending == [] {
      assert |q| == 1;
      assert !Includes(f.pending, ShowLetter) && !Includes(f.pending, CloseEnvelope);
    } else {
      SettleFlags(f);
      assert f.pending[|f.pending| - 1] == q[|q| - 1];
    }
  }

  /** When every pending timer shows the letter, letting them fire leaves the
      reveal open with the letter shown and the envelope as it was. */
  lemma {:induction false} SettleShowing(s: Snapshot)
    requires Valid(s) && s.pending != [] && AllAre(s.pending, ShowLetter)
    ensures Settle(s).isOpen && Settle(s).letterShown && Settle(s).envelopeOpened == s.envelopeOpened
    decreases |s.pending|
  {
    var f := Fire(s);
    if f.pending != [] {
      SettleShowing(f);
    }
  }

  /** When every pending timer closes the envelope, letting them fire leaves the
      reveal closed with the envelope closed and the letter as it was. */
  lemma {:induction false} SettleClosing(s: Snapshot)
    requires Valid(s) && s.pending != [] && AllAre(s.pending, CloseEnvelope)
    ensures !Settle(s).isOpen && !Settle(s).envelopeOpened && Settle(s).letterShown == s.letterShown
    decreases |s.pending|
  {
    var f := Fire(s);
    if f.pending != [] {
      SettleClosing(f);
    }
  }

  /** While an opening is in flight (isOpen still false, only reveal timers
      pending), a further click opens again: one more reveal timer, isOpen
      stays false, 'opened' is set and 'show' is unchanged. */
  lemma ClickWhileOpening(s: Snapshot, now: int)
    requires Valid(s) && CanClick(s, now) && !s.isOpen && AllAre(s.pending, ShowLetter)
    ensures var r := Toggle(s, now);
      && !r.isOpen && r.envelopeOpened && r.letterShown == s.letterShown
      && |r.pending| == |s.pending| + 1 && AllAre(r.pending, ShowLetter)
  {
    var t := Timer(now + RevealDelay, ShowLetter);
    var r := Toggle(s, now);
    forall i | 0 <= i < |r.pending| ensures r.pending[i].callback == ShowLetter {
      ScheduleMembers(s.pending, t, i);
    }
  }

  /** While a closing is in flight (isOpen still true, only closing timers
      pending), a further click closes again. */
  lemma ClickWhileClosing(s: Snapshot, now: int)
    requires Valid(s) && CanClick(s, now) && s.isOpen && AllAre(s.pending, CloseEnvelope)
    ensures var r := Toggle(s, now);
      && r.isOpen && !r.letterShown && r.envelopeOpened == s.envelopeOpened
      && |r.pending| == |s.pending| + 1 && AllAre(r.pending, CloseEnvelope)
  {
    var t := Timer(now + CloseDelay, CloseEnvelope);
    var r := Toggle(s, now);
    forall i | 0 <= i < |r.pending| ensures r.pending[i].callback == CloseEnvelope {
      ScheduleMembers(s.pending, t, i);
    }
  }

  /** From closed and idle, a click and its timer open the reveal fully; a
      second click and its timer bring it back to closed with neither class. */
  lemma RoundTrip(start: int, first: int, second: int)
    requires start <= first && first + RevealDelay <= second
    ensures Settle(Toggle(Closed(start), first)) == Snapshot(true, true, true, first + RevealDelay, [])
    ensures Settle(Toggle(Settle(Toggle(Closed(start), first)), second)) == Closed(second + CloseDelay)
  {
    var clicked := Toggle(Closed(start), first);
    assert clicked.pending == [Timer(first + RevealDelay, ShowLetter)];
    var open := Settle(clicked);
    assert open == Fire(clicked);
    var closing := Toggle(open, second);
    assert closing.pending == [Timer(second + CloseDelay, CloseEnvelope)];
    assert Settle(closing) == Fire(closing);
  }

  /** Two clicks before the first reveal timer fires both see isOpen false and
      both schedule a reveal; once the timers have run, the flags are those of a
      single click. */
  lemma DoubleClickBeforeReveal(start: int, first: int, second: int)
    requires start <= first <= second <= first + RevealDelay
    ensures var twice := Toggle(Toggle(Closed(start), first), second);
      && twice.pending == [Timer(first + RevealDelay, ShowLetter), Timer(second + RevealDelay, ShowLetter)]
      && Settle(twice).isOpen && Settle(twice).envelopeOpened && Settle(twice).letterShown
  {
    var once := Toggle(Closed(start), first);
    assert once.pending == [Timer(first + RevealDelay, ShowLetter)];
    var twice := Toggle(once, second);
    ClickWhileOpening(once, second);
    SettleShowing(twice);
  }

  /** Two clicks at 0 and 100 ms from closed: two reveals pending. */
  lemma TwoQuickClicks()
    ensures Toggle(Toggle(Closed(0), 0), 100)
         == Snapshot(false, true, false, 100, [Timer(300, ShowLetter), Timer(400, ShowLetter)])
  {
    DoubleClickBeforeReveal(0, 0, 100);
  }

  /** The first reveal fires, then a click at 350 ms closes while the second
      reveal is still pending. */
  lemma CloseWithRevealPending()
    ensures var s := Snapshot(false, true, false, 100, [Timer(300, ShowLetter), Timer(400, ShowLetter)]);
      Toggle(Fire(s), 350)
      == Snapshot(true, true, false, 350, [Timer(400, ShowLetter), Timer(850, CloseEnvelope)])
  {
    var s := Snapshot(false, true, false, 100, [Timer(300, ShowLetter), Timer(400, ShowLetter)]);
    assert Fire(s) == Snapshot(true, true, true, 300, [Timer(400, ShowLetter)]);
    assert InsertPos([Timer(400, ShowLetter)], 850) == 1;
  }

  /** The timers are never cancelled, so a stale reveal can run after a close
      has begun: two quick clicks, the first reveal, a click that closes, the
      second (stale) reveal, then the close timer. The reveal ends closed with
      the envelope closed, yet the letter still shown. */
  lemma StaleRevealAfterClose()
    ensures Run(Closed(0), [Click(0), Click(100), TimerFires, Click(350), TimerFires, TimerFires])
         == Some(Snapshot(false, false, true, 850, []))
  {
    var e := [Click(0), Click(100), TimerFires, Click(350), TimerFires, TimerFires];
    var s0 := Toggle(Closed(0), 0);
    TwoQuickClicks();
    var s1 := Snapshot(false, true, false, 100, [Timer(300, ShowLetter), Timer(400, ShowLetter)]);
    assert Run(Closed(0), e) == Run(s0, e[1..]);
    assert Run(s0, e[1..]) == Run(s1, e[2..]);
    CloseWithRevealPending();
    var s2 := Snapshot(true, true, false, 350, [Timer(400, ShowLetter), Timer(850, CloseEnvelope)]);
    assert Run(s1, e[2..]) == Run(Fire(s1), e[3..]);
    assert Run(Fire(s1), e[3..]) == Run(s2, e[4..]);
    var f2 := Fire(s2);
    assert f2 == Snapshot(true, true, true, 400, [Timer(850, CloseEnvelope)]);
    assert Run(s2, e[4..]) == Run(f2, e[5..]);
    assert Run(f2, e[5..]) == Run(Fire(f2), []);
  }

  /** The reveal object of the page: `isOpen`, the two class flags, and the
      timers it has started, over a virtual clock. */
  class LoveLetter {
    var isOpen: bool
    var envelopeOpened: bool         // 'opened' is in the envelope's class list
    var letterShown: bool           // 'show' is in the letter's class list
    var clock: int
    var pending: seq<Timer>

    function Current(): Snapshot
      reads this
    {
      Snapshot(isOpen, envelopeOpened, letterShown, clock, pending)
    }

    /** The constructor sets only `isOpen`; the page markup is taken to start
        with neither `opened` on the envelope nor `show` on the letter. */
    constructor (now: int)
      ensures Current() == Closed(now)
    {
      isOpen, envelopeOpened, letterShown := false, false, false;
      clock, pending := now, [];
    }

    /** The click handler. */
    method ToggleLetter(now: int)
      requires Valid(Current()) && CanClick(Current(), now)
      modifies this
      ensures Current() == Toggle(old(Current()), now)
    {
      if !isOpen {
        OpenLetter(now);
      } else {
        CloseLetter(now);
      }
    }

    method OpenLetter(now: int)
      requires Valid(Current()) && CanClick(Current(), now)
      modifies this
      ensures Current() == Open(old(Current()), now)
    {
      clock := now;
      envelopeOpened := true;
      pending := Schedule(pending, Timer(now + RevealDelay, ShowLetter));
    }

    method CloseLetter(now: int)
      requires Valid(Current()) && CanClick(Current(), now)
      modifies this
      ensures Current() == Close(old(Current()), now)
    {
      clock := now;
      letterShown := false;
      pending := Schedule(pending, Timer(now + CloseDelay, CloseEnvelope));
    }

    /** Run the earliest pending timer's callback. */
    method FireNext()
      requires Valid(Current()) && pending != []
      modifies this
      ensures Current() == Fire(old(Current()))
    {
      var t := pending[0];
      clock, pending := t.due, pending[1..];
      match t.callback
      case ShowLetter =>
        letterShown := true;
        isOpen := true;
      case CloseEnvelope =>
        envelopeOpened := false;
        isOpen := false;
    }
  }
}

/** The client's callbacks (src/shared/protocol.c): requests that wait for an answer,
    notifications that are on, and which callback is run when. A request is named by
    the position, in the run, of the event that sent it. */
module Callbacks {
  import opened Basics
  import opened Wire

  const TIMEOUT := 3

  /** The caller's key, as far as it is passed on. */
  datatype Key = Key(layer: Option<string>, group: Option<string>, name: Option<string>, kind: nat)

  /** A notify_value. `cb` is the function to call, 0 for none. */
  datatype Waiting = Waiting(serial: nat, cb: nat, data: nat, time: int, kind: nat, key: Option<Key>)

  /** One callback run, for a change or for an answer, with what it is passed. */
  datatype Fired = Fired(w: Waiting, change: bool, kind: nat, list: seq<Data>)

  type Table = map<uint32, Waiting>

  datatype State = State(callbacks: Table, notify: Table, log: seq<Fired>, reaped: set<nat>, clock: nat)

  /** `Send` is send_message after its message was made; `sent` says whether the write
      went through. `third` is what stands third in an answer's list. */
  datatype Event =
    | Send(msgid: uint32, cb: nat, data: nat, kind: nat, key: Option<Key>, now: int)
    | Response(msg: nat, msgid: uint32, list: seq<Data>, third: uint32)
    | Reap(now: int)

  const START := State(map[], map[], [], {}, 0)

  predicate Accepted(list: seq<Data>) {
    list != [] && list[0] == Int32(0)
  }

  predicate Expired(w: Waiting, now: int) {
    now - w.time > TIMEOUT
  }

  function Reaped(s: State, now: int): State {
    s.(callbacks := map m | m in s.callbacks && !Expired(s.callbacks[m], now) :: s.callbacks[m],
       reaped := s.reaped + set m | m in s.callbacks && Expired(s.callbacks[m], now) :: s.callbacks[m].serial)
  }

  /** run_callback. */
  function Called(log: seq<Fired>, f: Fired): seq<Fired> {
    if f.w.cb == 0 then log else log + [f]
  }

  function Answered(s: State, e: Event): (r: State)
    requires e.Response?
    ensures r.clock == s.clock
  {
    if e.msg == CONTROL_CHANGED then
      if e.msgid in s.notify then s.(log := Called(s.log, Fired(s.notify[e.msgid], true, CONTROL_CHANGED, e.list)))
      else s
    else if e.msgid !in s.callbacks then s
    else
      var w, t := s.callbacks[e.msgid], s.(callbacks := s.callbacks - {e.msgid});
      if w.kind == CONTROL_NOTIFY && Accepted(e.list) && e.msgid !in s.notify then
        t.(notify := s.notify[e.msgid := w])
      else if w.kind == CONTROL_UNNOTIFY && Accepted(e.list) then t.(notify := s.notify - {e.third})
      else t.(log := Called(s.log, Fired(w, false, w.kind, e.list)))
  }

  function Step(s: State, e: Event): State {
    var t :=
      match e
      case Reap(now) => Reaped(s, now)
      case Response(_, _, _, _) => Answered(s, e)
      case Send(msgid, cb, data, kind, key, now) =>
        var r := Reaped(s, now);
        if msgid in r.callbacks then r
        else r.(callbacks := r.callbacks[msgid := Waiting(s.clock, cb, data, now, kind, key)]);
    t.(clock := s.clock + 1)
  }

  function Run(events: seq<Event>): State {
    if events == [] then START else Step(Run(events[..|events| - 1]), events[|events| - 1])
  }

  // ---- what holds in every run ----

  /** The request was sent in this run, under this message id, as noted. */
  predicate SentAs(events: seq<Event>, m: uint32, w: Waiting) {
    && w.serial < |events|
    && events[w.serial] == Send(m, w.cb, w.data, w.kind, w.key, w.time)
  }

  /** After the request was sent, an answer to its message id accepted it. */
  ghost predicate Confirmed(events: seq<Event>, w: Waiting) {
    exists j :: w.serial < j < |events| && Confirms(events, j, w)
  }

  predicate Confirms(events: seq<Event>, j: nat, w: Waiting)
    requires w.serial < j < |events|
  {
    && events[j].Response? && events[j].msg != CONTROL_CHANGED && Accepted(events[j].list)
    && events[w.serial].Send? && events[j].msgid == events[w.serial].msgid
  }

  ghost predicate Waits(events: seq<Event>, s: State, m: uint32)
    requires m in s.callbacks
  {
    var w := s.callbacks[m];
    && SentAs(events, m, w) && w.serial !in s.reaped
    && forall i :: 0 <= i < |s.log| ==> s.log[i].w.serial != w.serial
  }

  ghost predicate On(events: seq<Event>, s: State, m: uint32)
    requires m in s.notify
  {
    var w := s.notify[m];
    && SentAs(events, m, w) && w.serial !in s.reaped
    && w.kind == CONTROL_NOTIFY && Confirmed(events, w)
    && (forall n :: n in s.callbacks ==> s.callbacks[n].serial != w.serial)
    && (forall i :: 0 <= i < |s.log| && s.log[i].w.serial == w.serial ==> s.log[i].change)
  }

  /** A response that came after the request, to its message id, brought the list. */
  ghost predicate Caused(events: seq<Event>, f: Fired) {
    exists j :: f.w.serial < j < |events| && Causes(events, j, f)
  }

  predicate Causes(events: seq<Event>, j: nat, f: Fired)
    requires f.w.serial < j < |events|
  {
    && events[j].Response? && events[f.w.serial].Send? && events[j].msgid == events[f.w.serial].msgid
    && events[j].list == f.list && (events[j].msg == CONTROL_CHANGED <==> f.change)
  }

  /** A change was brought by a response that came after the request was accepted. */
  ghost predicate Announced(events: seq<Event>, f: Fired) {
    exists j, k :: f.w.serial < j < k < |events| && Confirms(events, j, f.w) && Causes(events, k, f)
  }

  /** A callback that was run: for the answer, or for a change that was asked for. */
  ghost predicate Right(events: seq<Event>, s: State, i: nat)
    requires i < |s.log|
  {
    var f := s.log[i];
    && f.w.cb != 0 && f.w.serial !in s.reaped && f.w.serial < |events|
    && (exists m :: SentAs(events, m, f.w)) && Caused(events, f)
    && if f.change then f.kind == CONTROL_CHANGED && f.w.kind == CONTROL_NOTIFY && Announced(events, f)
       else f.kind == f.w.kind
  }

  /** A request whose answer was passed on is not heard of again. */
  ghost predicate OnceEach(log: seq<Fired>) {
    forall i, j :: 0 <= i < j < |log| && log[i].w.serial == log[j].w.serial ==> log[i].change && log[j].change
  }

  ghost predicate Sound(events: seq<Event>, s: State) {
    && OnceEach(s.log)
    && (forall n :: n in s.reaped ==> n < |events|)
    && (forall m :: m in s.callbacks ==> Waits(events, s, m))
    && (forall m :: m in s.notify ==> On(events, s, m))
    && (forall i :: 0 <= i < |s.log| ==> Right(events, s, i))
  }

  lemma ConfirmedLater(events: seq<Event>, e: Event, w: Waiting)
    requires Confirmed(events, w)
    ensures Confirmed(events + [e], w)
  {
    var j :| w.serial < j < |events| && Confirms(events, j, w);
    assert Confirms(events + [e], j, w);
  }

  lemma CausedLater(events: seq<Event>, e: Event, f: Fired)
    requires Caused(events, f)
    ensures Caused(events + [e], f)
  {
    var j :| f.w.serial < j < |events| && Causes(events, j, f);
    assert Causes(events + [e], j, f);
  }

  lemma AnnouncedLater(events: seq<Event>, e: Event, f: Fired)
    requires Announced(events, f)
    ensures Announced(events + [e], f)
  {
    var j, k :| f.w.serial < j < k < |events| && Confirms(events, j, f.w) && Causes(events, k, f);
    assert Confirms(events + [e], j, f.w) && Causes(events + [e], k, f);
  }

  lemma AnnouncedBy(events: seq<Event>, e: Event, f: Fired)
    requires Confirmed(events, f.w) && f.w.serial < |events| && Causes(events + [e], |events|, f)
    ensures Announced(events + [e], f)
  {
    var j :| f.w.serial < j < |events| && Confirms(events, j, f.w);
    assert Confirms(events + [e], j, f.w);
  }

  lemma CausedBy(events: seq<Event>, j: nat, f: Fired)
    requires f.w.serial < j < |events| && Causes(events, j, f)
    ensures Caused(events, f)
  {
  }

  lemma Later(events: seq<Event>, e: Event, s: State)
    requires Sound(events, s)
    ensures Sound(events + [e], s)
  {
    hide Confirmed, Caused, Announced, OnceEach;
    forall m | m in s.callbacks ensures Waits(events + [e], s, m) {
      assert Waits(events, s, m);
    }
    forall m | m in s.notify ensures On(events + [e], s, m) {
      assert On(events, s, m);
      ConfirmedLater(events, e, s.notify[m]);
    }
    forall i | 0 <= i < |s.log| ensures Right(events + [e], s, i) {
      assert Right(events, s, i);
      var m :| SentAs(events, m, s.log[i].w);
      assert SentAs(events + [e], m, s.log[i].w);
      CausedLater(events, e, s.log[i]);
      if s.log[i].change {
        AnnouncedLater(events, e, s.log[i]);
      }
    }
  }

  lemma ReapSound(events: seq<Event>, s: State, now: int)
    requires Sound(events, s)
    ensures Sound(events, Reaped(s, now))
  {
    hide Confirmed, Caused, Announced, OnceEach;
    var t := Reaped(s, now);
    forall m | m in s.callbacks ensures Waits(events, s, m) {}
    forall m | m in t.callbacks ensures Waits(events, t, m) {
      assert Waits(events, s, m);
    }
    forall m | m in t.notify ensures On(events, t, m) {
      assert On(events, s, m);
    }
    forall i | 0 <= i < |t.log| ensures Right(events, t, i) {
      assert Right(events, s, i);
    }
  }

  lemma SendSound(events: seq<Event>, s: State, e: Event)
    requires Sound(events, s) && e.Send? && e.msgid !in s.callbacks
    ensures Sound(events + [e],
      s.(callbacks := s.callbacks[e.msgid := Waiting(|events|, e.cb, e.data, e.now, e.kind, e.key)]))
  {
    hide Confirmed, Caused, Announced, OnceEach;
    var w := Waiting(|events|, e.cb, e.data, e.now, e.kind, e.key);
    var t, later := s.(callbacks := s.callbacks[e.msgid := w]), events + [e];
    Later(events, e, s);
    forall i | 0 <= i < |s.log| ensures s.log[i].w.serial < |events| && Right(later, t, i) {
      assert Right(events, s, i) && Right(later, s, i);
    }
    forall m | m in t.callbacks ensures Waits(later, t, m) {
      assert m != e.msgid ==> Waits(later, s, m);
    }
    forall m | m in t.notify ensures On(later, t, m) {
      assert On(events, s, m) && On(later, s, m);
    }
  }

  /** A request is taken from the table; nothing has been passed on for it. */
  lemma TakenSound(events: seq<Event>, s: State, m: uint32)
    requires Sound(events, s) && m in s.callbacks
    ensures Sound(events, s.(callbacks := s.callbacks - {m}))
    ensures Free(events, s.(callbacks := s.callbacks - {m}), m, s.callbacks[m])
  {
    hide Confirmed, Caused, Announced, OnceEach;
    var w, t := s.callbacks[m], s.(callbacks := s.callbacks - {m});
    assert Waits(events, s, m);
    forall n | n in t.callbacks ensures Waits(events, t, n) && t.callbacks[n].serial != w.serial {
      assert Waits(events, s, n);
    }
    forall n | n in t.notify ensures On(events, t, n) && t.notify[n].serial != w.serial {
      assert On(events, s, n);
    }
    forall i | 0 <= i < |t.log| ensures Right(events, t, i) {
      assert Right(events, s, i);
    }
  }

  /** Sent, and in neither table nor log. */
  ghost predicate Free(events: seq<Event>, s: State, m: uint32, w: Waiting) {
    && SentAs(events, m, w) && w.serial !in s.reaped
    && (forall n :: n in s.callbacks ==> s.callbacks[n].serial != w.serial)
    && (forall n :: n in s.notify ==> s.notify[n].serial != w.serial)
    && (forall i :: 0 <= i < |s.log| ==> s.log[i].w.serial != w.serial)
  }

  lemma TurnedOn(events: seq<Event>, s: State, m: uint32, w: Waiting)
    requires Sound(events, s) && Free(events, s, m, w) && Confirmed(events, w) && w.kind == CONTROL_NOTIFY
    ensures Sound(events, s.(notify := s.notify[m := w]))
  {
    hide Confirmed, Caused, Announced, OnceEach;
    var t := s.(notify := s.notify[m := w]);
    forall n | n in t.callbacks ensures Waits(events, t, n) {
      assert Waits(events, s, n);
    }
    forall n | n in t.notify ensures On(events, t, n) {
      assert n != m ==> On(events, s, n);
    }
    forall i | 0 <= i < |t.log| ensures Right(events, t, i) {
      assert Right(events, s, i);
    }
  }

  lemma TurnedOff(events: seq<Event>, s: State, m: uint32)
    requires Sound(events, s)
    ensures Sound(events, s.(notify := s.notify - {m}))
  {
    hide Confirmed, Caused, Announced, OnceEach;
    var t := s.(notify := s.notify - {m});
    forall n | n in t.callbacks ensures Waits(events, t, n) {
      assert Waits(events, s, n);
    }
    forall n | n in t.notify ensures On(events, t, n) {
      assert On(events, s, n);
    }
    forall i | 0 <= i < |t.log| ensures Right(events, t, i) {
      assert Right(events, s, i);
    }
  }

  lemma ReplySound(events: seq<Event>, s: State, m: uint32, w: Waiting, list: seq<Data>)
    requires Sound(events, s) && Free(events, s, m, w) && Caused(events, Fired(w, false, w.kind, list))
    ensures Sound(events, s.(log := Called(s.log, Fired(w, false, w.kind, list))))
  {
    hide Confirmed, Caused, Announced;
    var t := s.(log := Called(s.log, Fired(w, false, w.kind, list)));
    forall n | n in t.callbacks ensures Waits(events, t, n) {
      assert Waits(events, s, n);
    }
    forall n | n in t.notify ensures On(events, t, n) {
      assert On(events, s, n);
    }
    forall i | 0 <= i < |t.log| ensures Right(events, t, i) {
      assert i < |s.log| ==> Right(events, s, i);
      assert SentAs(events, m, w);
    }
  }

  lemma ChangeSound(events: seq<Event>, s: State, w: Waiting, e: Event)
    requires Sound(events, s) && e.Response? && e.msgid in s.notify && w == s.notify[e.msgid]
    requires Caused(events, Fired(w, true, CONTROL_CHANGED, e.list))
    requires Announced(events, Fired(w, true, CONTROL_CHANGED, e.list))
    ensures Sound(events, s.(log := Called(s.log, Fired(w, true, CONTROL_CHANGED, e.list))))
  {
    hide Confirmed, Caused, Announced;
    var t := s.(log := Called(s.log, Fired(w, true, CONTROL_CHANGED, e.list)));
    assert On(events, s, e.msgid);
    forall n | n in t.callbacks ensures Waits(events, t, n) {
      assert Waits(events, s, n);
    }
    forall n | n in t.notify ensures On(events, t, n) {
      assert On(events, s, n);
    }
    forall i | 0 <= i < |t.log| ensures Right(events, t, i) {
      assert i < |s.log| ==> Right(events, s, i);
      assert SentAs(events, e.msgid, w);
    }
  }

  lemma AnswerSound(events: seq<Event>, s: State, e: Event)
    requires Sound(events, s) && e.Response?
    ensures Sound(events + [e], Answered(s, e))
  {
    hide Confirmed, Caused, Announced;
    var t, later := Answered(s, e), events + [e];
    Later(events, e, s);
    if e.msg == CONTROL_CHANGED {
      if e.msgid in s.notify {
        assert On(later, s, e.msgid);
        var f := Fired(s.notify[e.msgid], true, CONTROL_CHANGED, e.list);
        assert On(events, s, e.msgid);
        assert Causes(later, |events|, f);
        CausedBy(later, |events|, f);
        AnnouncedBy(events, e, f);
        ChangeSound(later, s, s.notify[e.msgid], e);
      }
    } else if e.msgid in s.callbacks {
      assert Waits(later, s, e.msgid) && Waits(events, s, e.msgid);
      TakenSound(later, s, e.msgid);
      var w, u := s.callbacks[e.msgid], s.(callbacks := s.callbacks - {e.msgid});
      if w.kind == CONTROL_NOTIFY && Accepted(e.list) && e.msgid !in s.notify {
        assert Confirms(later, |events|, w);
        assert Confirmed(later, w) by { ConfirmedBy(later, |events|, w); }
        TurnedOn(later, u, e.msgid, w);
      } else if w.kind == CONTROL_UNNOTIFY && Accepted(e.list) {
        TurnedOff(later, u, e.third);
      } else {
        var f := Fired(w, false, w.kind, e.list);
        assert Causes(later, |events|, f);
        CausedBy(later, |events|, f);
        ReplySound(later, u, e.msgid, w, e.list);
      }
    }
  }

  lemma ConfirmedBy(events: seq<Event>, j: nat, w: Waiting)
    requires w.serial < j < |events| && Confirms(events, j, w)
    ensures Confirmed(events, w)
  {
  }

  /** In every run each request's callback is run at most once for its answer, with
      the type and key it was sent with; callbacks for changes are run only for
      requests accepted earlier; nothing is run for a request given up. */
  lemma {:induction false} AlwaysSound(events: seq<Event>)
    ensures Sound(events, Run(events)) && Run(events).clock == |events|
  {
    hide Sound, Answered;
    if events == [] {
      assert Sound([], START) by { StartSound(); }
    } else {
      var before, e := events[..|events| - 1], events[|events| - 1];
      AlwaysSound(before);
      var s := Run(before);
      assert events == before + [e];
      match e {
        case Reap(now) =>
          ReapSound(before, s, now);
          Later(before, e, Reaped(s, now));
          ClockSound(events, Reaped(s, now));
        case Response(_, _, _, _) =>
          AnswerSound(before, s, e);
          ClockSound(events, Answered(s, e));
        case Send(msgid, cb, data, kind, key, now) =>
          var r := Reaped(s, now);
          ReapSound(before, s, now);
          Later(before, e, r);
          ClockSound(events, r);
          if msgid !in r.callbacks {
            SendSound(before, r, e);
            ClockSound(events, r.(callbacks := r.callbacks[msgid := Waiting(s.clock, cb, data, now, kind, key)]));
          }
      }
    }
  }

  lemma StartSound()
    ensures Sound([], START)
  {
  }

  lemma ClockSound(events: seq<Event>, s: State)
    requires Sound(events, s)
    ensures Sound(events, s.(clock := s.clock + 1))
  {
    var t := s.(clock := s.clock + 1);
    hide Confirmed, Caused, Announced, OnceEach;
    forall n | n in t.callbacks ensures Waits(events, t, n) {
      assert Waits(events, s, n);
    }
    forall n | n in t.notify ensures On(events, t, n) {
      assert On(events, s, n);
    }
    forall i | 0 <= i < |t.log| ensures Right(events, t, i) {
      assert Right(events, s, i);
    }
  }

  /** The event neither answers the request under `m` nor comes too late for it. */
  predicate Leaves(e: Event, m: uint32, w: Waiting) {
    match e
    case Response(msg, id, _, _) => msg == CONTROL_CHANGED || id != m
    case Send(_, _, _, _, _, now) => now <= w.time + 3
    case Reap(now) => now <= w.time + 3
  }

  /** A request is noted when it is sent, unless its message id is taken by one that
      has waited for three seconds at most. Those that have waited longer go, and no
      others. */
  lemma SendNoted(events: seq<Event>, e: Event, m: uint32)
    requires e.Send?
    ensures var before, after := Run(events).callbacks, Run(events + [e]).callbacks;
      var waits := m in before && e.now <= before[m].time + 3;
      && (m in after <==> waits || m == e.msgid)
      && (waits ==> after[m] == before[m])
      && (!waits && m == e.msgid ==> after[m] == Waiting(|events|, e.cb, e.data, e.now, e.kind, e.key))
    ensures Run(events + [e]).log == Run(events).log
  {
    hide Run;
    AlwaysSound(events);
    RunSnoc(events, e);
  }

  /** Reaping does just that. */
  lemma ReapedExact(events: seq<Event>, now: int, m: uint32)
    ensures var before, after := Run(events).callbacks, Run(events + [Reap(now)]).callbacks;
      && (m in after <==> m in before && now <= before[m].time + 3)
      && (m in after ==> after[m] == before[m])
    ensures Run(events + [Reap(now)]).log == Run(events).log
  {
    hide Run;
    RunSnoc(events, Reap(now));
  }

  lemma RunSnoc(events: seq<Event>, e: Event)
    ensures Run(events + [e]) == Step(Run(events), e)
  {
    assert (events + [e])[..|events|] == events;
  }

  lemma StepLeaves(s: State, e: Event, m: uint32)
    requires m in s.callbacks && Leaves(e, m, s.callbacks[m])
    ensures m in Step(s, e).callbacks && Step(s, e).callbacks[m] == s.callbacks[m]
  {
  }

  /** A request waits until it is answered or time has passed. */
  lemma {:induction false} StaysWaiting(events: seq<Event>, more: seq<Event>, m: uint32)
    requires m in Run(events).callbacks
    requires forall i :: 0 <= i < |more| ==> Leaves(more[i], m, Run(events).callbacks[m])
    ensures m in Run(events + more).callbacks && Run(events + more).callbacks[m] == Run(events).callbacks[m]
  {
    hide Step, Leaves;
    if more == [] {
      assert events + more == events;
    } else {
      var n := |more| - 1;
      StaysWaiting(events, more[..n], m);
      var all := events + more;
      assert all[..|all| - 1] == events + more[..n] && all[|all| - 1] == more[n];
      StepLeaves(Run(events + more[..n]), more[n], m);
    }
  }

  /** Its answer then reaches its callback, once: the same answer again does nothing.
      Only the answers that turn a notification on or off are not passed on. */
  lemma AnswerReaches(events: seq<Event>, e: Event, again: Event)
    requires e.Response? && e.msg != CONTROL_CHANGED && e.msgid in Run(events).callbacks
    requires Run(events).callbacks[e.msgid].cb != 0
    requires again.Response? && again.msg != CONTROL_CHANGED && again.msgid == e.msgid
    ensures var w := Run(events).callbacks[e.msgid];
      var quiet := e.list != [] && e.list[0] == Int32(0)
        && ((w.kind == CONTROL_NOTIFY && e.msgid !in Run(events).notify) || w.kind == CONTROL_UNNOTIFY);
      Run(events + [e]).log == Run(events + [e, again]).log ==
        if quiet then Run(events).log else Run(events).log + [Fired(w, false, w.kind, e.list)]
  {
    hide Run;
    RunSnoc(events, e);
    RunSnoc(events + [e], again);
    assert events + [e] + [again] == events + [e, again];
  }

  // ---- notifications ----

  /** The `j`-th event is an answer with status 0 to a request of kind `kind` that waits
      under its message id. */
  ghost predicate Accepts(events: seq<Event>, j: nat, kind: nat)
    requires j < |events|
  {
    var e, waiting := events[j], Run(events[..j]).callbacks;
    && e.Response? && e.msg != CONTROL_CHANGED && e.msgid in waiting && waiting[e.msgid].kind == kind
    && e.list != [] && e.list[0] == Int32(0)
  }

  ghost predicate TurnsOn(events: seq<Event>, j: nat, m: uint32)
    requires j < |events|
  {
    Accepts(events, j, CONTROL_NOTIFY) && events[j].msgid == m
  }

  ghost predicate TurnsOff(events: seq<Event>, j: nat, m: uint32)
    requires j < |events|
  {
    Accepts(events, j, CONTROL_UNNOTIFY) && events[j].third == m
  }

  /** Whatever turned notifications under `m` on was turned off again. */
  ghost predicate Off(events: seq<Event>, m: uint32) {
    forall i :: 0 <= i < |events| && TurnsOn(events, i, m) ==> exists k :: i < k < |events| && TurnsOff(events, k, m)
  }

  /** The `j`-th event turned them on, when they were off, and none later off. */
  ghost predicate OnSince(events: seq<Event>, j: nat, m: uint32) {
    && j < |events| && TurnsOn(events, j, m) && Off(events[..j], m)
    && forall k :: j < k < |events| ==> !TurnsOff(events, k, m)
  }

  lemma SamePast(events: seq<Event>, n: nat, i: nat, m: uint32)
    requires i < n <= |events|
    ensures TurnsOn(events[..n], i, m) == TurnsOn(events, i, m)
    ensures TurnsOff(events[..n], i, m) == TurnsOff(events, i, m)
  {
    assert events[..n][..i] == events[..i];
  }

  lemma OnlyOne(events: seq<Event>, j: nat, k: nat, m: uint32)
    requires OnSince(events, j, m) && OnSince(events, k, m)
    ensures j == k
  {
    if j < k {
      OnBefore(events, j, k, m);
    } else if k < j {
      OnBefore(events, k, j, m);
    }
  }

  lemma OnBefore(events: seq<Event>, j: nat, k: nat, m: uint32)
    requires j < k <= |events| && OnSince(events, j, m)
    ensures !Off(events[..k], m)
  {
    hide TurnsOn, TurnsOff;
    SamePast(events, k, j, m);
    forall i | j < i < k ensures !TurnsOff(events[..k], i, m) {
      SamePast(events, k, i, m);
    }
  }

  /** The table holds just the notifications that are on, each with its request. */
  lemma {:induction false} NotifyExact(events: seq<Event>, m: uint32) returns (j: int)
    ensures if m in Run(events).notify
      then j >= 0 && OnSince(events, j, m) && Run(events).notify[m] == Run(events[..j]).callbacks[m]
      else Off(events, m)
  {
    if events == [] {
      return -1;
    }
    var n := |events| - 1;
    var before := events[..n];
    j := NotifyExact(before, m);
    hide Run, TurnsOn, TurnsOff;
    LastTurn(events, m);
    if m in Run(before).notify {
      assert before[..j] == events[..j];
      StillOn(events, j, m);
      if TurnsOff(events, n, m) {
        return -1;
      }
    } else if TurnsOn(events, n, m) {
      j := n;
    } else {
      StillOff(events, m);
    }
  }

  /** What one event makes of the table. */
  lemma NotifyStep(s: State, e: Event, m: uint32)
    ensures var accepted := e.Response? && e.msg != CONTROL_CHANGED && e.msgid in s.callbacks
        && e.list != [] && e.list[0] == Int32(0);
      var on := accepted && s.callbacks[e.msgid].kind == CONTROL_NOTIFY && e.msgid == m;
      var off := accepted && s.callbacks[e.msgid].kind == CONTROL_UNNOTIFY && e.third == m;
      var after := Step(s, e).notify;
      if off then m !in after
      else if m in s.notify then m in after && after[m] == s.notify[m]
      else if on then m in after && after[m] == s.callbacks[m]
      else m !in after
  {
  }

  /** What the last event makes of it. */
  lemma LastTurn(events: seq<Event>, m: uint32)
    requires events != []
    ensures var n := |events| - 1;
      var before, after := Run(events[..n]), Run(events).notify;
      && (TurnsOff(events, n, m) ==> !TurnsOn(events, n, m))
      && if TurnsOff(events, n, m) then m !in after
         else if m in before.notify then m in after && after[m] == before.notify[m]
         else if TurnsOn(events, n, m) then m in after && after[m] == before.callbacks[m]
         else m !in after
  {
    var n := |events| - 1;
    RunSnoc(events[..n], events[n]);
    NotifyStep(Run(events[..n]), events[n], m);
    hide Run, Step;
    assert events[..n] + [events[n]] == events;
  }

  lemma StillOn(events: seq<Event>, j: nat, m: uint32)
    requires events != [] && OnSince(events[..|events| - 1], j, m)
    requires TurnsOff(events, |events| - 1, m) ==> !TurnsOn(events, |events| - 1, m)
    ensures if TurnsOff(events, |events| - 1, m) then Off(events, m) else OnSince(events, j, m)
  {
    hide TurnsOn, TurnsOff;
    var n := |events| - 1;
    forall i | 0 <= i < n
      ensures TurnsOn(events[..n], i, m) == TurnsOn(events, i, m) && TurnsOff(events[..n], i, m) == TurnsOff(events, i, m)
    {
      SamePast(events, n, i, m);
    }
    assert events[..n][..j] == events[..j];
  }

  lemma StillOff(events: seq<Event>, m: uint32)
    requires events != [] && Off(events[..|events| - 1], m) && !TurnsOn(events, |events| - 1, m)
    ensures Off(events, m)
  {
    hide TurnsOn, TurnsOff;
    var n := |events| - 1;
    forall i | 0 <= i < n
      ensures TurnsOn(events[..n], i, m) == TurnsOn(events, i, m) && TurnsOff(events[..n], i, m) == TurnsOff(events, i, m)
    {
      SamePast(events, n, i, m);
    }
  }

  /** Every change is delivered, from when a NOTIFY was answered with 0 until an UNNOTIFY
      for it is: the callback of that request is run with the change's list. Otherwise
      none is. */
  lemma ChangeDelivered(events: seq<Event>, e: Event)
    requires e.Response? && e.msg == CONTROL_CHANGED
    ensures Off(events, e.msgid) || exists j :: OnSince(events, j, e.msgid)
    ensures Off(events, e.msgid) ==> Run(events + [e]).log == Run(events).log
    ensures forall j: nat :: OnSince(events, j, e.msgid) ==>
      var w := Run(events[..j]).callbacks[e.msgid];
      && SentAs(events, e.msgid, w) && w.kind == CONTROL_NOTIFY
      && Run(events + [e]).log ==
           Run(events).log + if w.cb == 0 then [] else [Fired(w, true, CONTROL_CHANGED, e.list)]
  {
    var m := e.msgid;
    RunSnoc(events, e);
    var k := NotifyExact(events, m);
    forall j: nat | OnSince(events, j, m)
      ensures !Off(events, m) && m in Run(events).notify && j == k
      ensures SentAs(events, m, Run(events[..j]).callbacks[m])
    {
      NotOff(events, j, m);
      OnlyOne(events, j, k, m);
      AlwaysSound(events[..j]);
      assert Waits(events[..j], Run(events[..j]), m);
    }
    hide Run, OnSince, Off;
  }

  lemma NotOff(events: seq<Event>, j: nat, m: uint32)
    requires OnSince(events, j, m)
    ensures !Off(events, m)
  {
  }

  // ---- message ids ----

  /** The message id of the n-th call after the counter stood at `first`. */
  function Id(first: uint32, n: nat): uint32 {
    (first + n) % TWO32
  }

  lemma Remainders(a: nat, b: nat)
    requires a <= b
    ensures a % TWO32 == b % TWO32 <==> (b - a) % TWO32 == 0
  {
    var d := b - a;
    var p, q, r := a / TWO32, b / TWO32, d / TWO32;
    assert a == p * TWO32 + a % TWO32 && b == q * TWO32 + b % TWO32 && d == r * TWO32 + d % TWO32;
  }

  /** Message ids are the same exactly for calls a multiple of 2^32 apart; so those of
      2^32 calls in a row are all different. */
  lemma IdsDiffer(first: uint32, i: nat, j: nat)
    requires i < j
    ensures Id(first, i) == Id(first, j) <==> (j - i) % TWO32 == 0
    ensures j < i + TWO32 ==> Id(first, i) != Id(first, j)
  {
    Remainders(first + i, first + j);
  }

  /** Every request is sent under a message id of its own call: the `draw[i]`-th. Calls
      whose message was never sent leave gaps. */
  ghost predicate Numbered(events: seq<Event>, first: uint32, draw: seq<nat>) {
    && |draw| == |events|
    && (forall i :: 0 <= i < |events| && events[i].Send? ==> events[i].msgid == Id(first, draw[i]))
    && forall i, j :: 0 <= i < j < |events| && events[i].Send? && events[j].Send? ==> draw[i] != draw[j]
  }

  /** A request under the message id of a call of its own finds that id taken only by
      one whose call was 2^32 calls or more away, and which still waits. */
  lemma NeverTaken(events: seq<Event>, first: uint32, draw: seq<nat>, n: nat, now: int)
    requires Numbered(events, first, draw)
    requires forall i :: 0 <= i < |events| && events[i].Send? ==> draw[i] != n
    ensures var id, waiting := Id(first, n), Reaped(Run(events), now).callbacks;
      id in waiting ==>
        && waiting[id].serial < |events| && events[waiting[id].serial].Send?
        && (n >= draw[waiting[id].serial] + TWO32 || draw[waiting[id].serial] >= n + TWO32)
  {
    hide Run, Id;
    var id, s := Id(first, n), Run(events);
    AlwaysSound(events);
    if id in Reaped(s, now).callbacks {
      assert Waits(events, s, id);
      var d := draw[s.callbacks[id].serial];
      assert Id(first, d) == id;
      if d < n {
        IdsDiffer(first, d, n);
      } else {
        IdsDiffer(first, n, d);
      }
    }
  }

  // ---- the client ----

  class Client {
    var callbacks: Table
    var notifyCallbacks: Table
    var msgid: uint32
    /** The callbacks run so far. */
    var log: seq<Fired>
    ghost var reaped: set<nat>
    var clock: nat

    constructor ()
      ensures S() == START && msgid == 0
    {
      callbacks, notifyCallbacks, msgid, log, reaped, clock := map[], map[], 0, [], {}, 0;
    }

    ghost function S(): State
      reads this
    {
      State(callbacks, notifyCallbacks, log, reaped, clock)
    }

    /** __sync_fetch_and_add on 32 bits. */
    method GetMsgid() returns (r: uint32)
      modifies this`msgid
      ensures r == Id(old(msgid), 0) && msgid == Id(old(msgid), 1)
    {
      r := msgid;
      msgid := (msgid + 1) % TWO32;
    }

    method ReapCallbacks(now: int)
      modifies this`callbacks, this`reaped
      ensures S() == Reaped(old(S()), now)
    {
      ghost var s := S();
      var left := callbacks.Keys;
      while left != {}
        invariant left <= s.callbacks.Keys
        invariant callbacks == map m | m in s.callbacks && (m in left || !Expired(s.callbacks[m], now)) :: s.callbacks[m]
        invariant reaped == s.reaped
          + set m | m in s.callbacks && m !in left && Expired(s.callbacks[m], now) :: s.callbacks[m].serial
        decreases left
      {
        var m :| m in left;
        left := left - {m};
        if now - callbacks[m].time > TIMEOUT {
          reaped := reaped + {callbacks[m].serial};
          callbacks := callbacks - {m};
        }
      }
    }

    method RunCallback(f: Fired)
      modifies this`log
      ensures log == Called(old(log), f)
    {
      if f.w.cb != 0 {
        log := log + [f];
      }
    }

    /** Fails when the message id is taken, or when the write fails; then the request
        waits all the same. */
    method SendMessage(cb: nat, data: nat, id: uint32, kind: nat, key: Option<Key>, now: int, written: bool)
      returns (ok: bool)
      modifies this
      ensures S() == Step(old(S()), Send(id, cb, data, kind, key, now)) && msgid == old(msgid)
      ensures ok <==> written && id !in Reaped(old(S()), now).callbacks
    {
      var nv := Waiting(clock, cb, data, now, kind, key);
      ReapCallbacks(now);
      clock := clock + 1;
      if id in callbacks {
        return false;
      }
      callbacks := callbacks[id := nv];
      ok := written;
    }

    method HandleCallbackResponse(msg: nat, id: uint32, list: seq<Data>, third: uint32)
      requires msg != CONTROL_CHANGED ==> list != []
      modifies this
      ensures S() == Step(old(S()), Response(msg, id, list, third)) && msgid == old(msgid)
    {
      clock := clock + 1;
      if msg == CONTROL_CHANGED {
        if id in notifyCallbacks {
          RunCallback(Fired(notifyCallbacks[id], true, CONTROL_CHANGED, list));
        }
        return;
      }
      if id !in callbacks {
        return;
      }
      var nv := callbacks[id];
      callbacks := callbacks - {id};
      if nv.kind == CONTROL_NOTIFY {
        if list[0].Int32? && list[0].i32 == 0 {
          if id !in notifyCallbacks {
            notifyCallbacks := notifyCallbacks[id := nv];
            return;
          }
        }
      } else if nv.kind == CONTROL_UNNOTIFY {
        if list[0].Int32? && list[0].i32 == 0 {
          notifyCallbacks := notifyCallbacks - {third};
          return;
        }
      }
      RunCallback(Fired(nv, false, nv.kind, list));
    }
  }
}

/** How frames are cut out of the byte stream: handle_client of src/core/daemon.c
    and its client twin in src/shared/protocol.c. The operating system decides how
    many bytes each read returns; that decision is a list of events. */
module Framing {
  import opened Wire
  import opened Serialize

  type pos = x: int | x > 0 witness 1

  /** One read: at least one byte and at most `most`, nothing available (EAGAIN),
      end of file, or another error. */
  datatype ReadEvent = Chunk(most: pos) | Again | Closed | Failed

  const MESSAGE_LIMIT := 32

  datatype Served = Served(frames: seq<seq<byte>>, rest: seq<byte>, terminated: bool)

  /** What happens to a stream all of whose bytes arrive, however they are cut:
      the frames handed to the handler, the bytes left unread, and whether the
      connection is dropped. An incomplete last frame is read and forgotten. */
  function Serve(s: seq<byte>, limit: nat, ok: seq<byte> -> bool): (r: Served)
    ensures |r.frames| <= limit
  {
    if limit == 0 then Served([], s, false)
    else if |s| < HEADER_LENGTH then Served([], [], false)
    else
      var n := MessageSize(s);
      if n == 0 || n > MESSAGE_MAX_LENGTH then Served([], s[HEADER_LENGTH..], true)
      else if |s| < n then Served([], [], false)
      else if !ok(s[..n]) then Served([s[..n]], s[n..], true)
      else
        var r := Serve(s[n..], limit - 1, ok);
        Served([s[..n]] + r.frames, r.rest, r.terminated)
  }

  ghost function After(frames: seq<seq<byte>>, r: Served): Served {
    Served(frames + r.frames, r.rest, r.terminated)
  }

  datatype Verdict = Cleanup | Terminate
  datatype Turned = Next | Handled | Stop(verdict: Verdict, more: bool, interrupted: bool)

  lemma AfterEnds(frames: seq<seq<byte>>, r: Served)
    ensures After([], r) == r && frames <= After(frames, r).frames
    ensures After(frames, r) == Served(frames + r.frames, r.rest, r.terminated)
  {
    assert [] + r.frames == r.frames;
  }

  lemma AfterTwice(front: seq<seq<byte>>, frame: seq<seq<byte>>, r: Served)
    ensures After(front, After(frame, r)) == After(front + frame, r)
  {
    assert front + (frame + r.frames) == front + frame + r.frames;
  }

  /** Every read finds data until all has arrived. */
  ghost predicate Steady(events: seq<ReadEvent>, pending: nat) {
    |events| > pending && forall i :: 0 <= i < |events| ==> events[i].Chunk?
  }

  class Connection {
    var input: seq<byte>            // sent by the peer, not read yet
    var events: seq<ReadEvent>      // what the coming reads will do
    var handled: seq<seq<byte>>     // frames given to the handler so far
    var data: array<byte>
    var offset: nat
    var size: nat

    constructor (input: seq<byte>, events: seq<ReadEvent>)
      ensures this.input == input && this.events == events && handled == []
      ensures offset == 0 && size == HEADER_LENGTH
    {
      this.input, this.events, handled := input, events, [];
      data := new byte[0];
      offset, size := 0, HEADER_LENGTH;
    }

    /** read(fd, data + offset, want): the count, 0 at end of file, or -1 with EAGAIN
        or -2 with another error. */
    method Read(want: nat) returns (l: int)
      requires want > 0 && offset + want <= data.Length
      modifies this`input, this`events, data
      ensures -2 <= l <= want && l <= |old(input)|
      ensures |events| == if old(events) == [] then 0 else |old(events)| - 1
      ensures old(events) != [] ==> events == old(events)[1..]
      ensures l > 0 ==> old(events) != [] && old(events[0]).Chunk? && input == old(input)[l..]
      ensures l > 0 ==> data[..offset + l] == old(data[..offset]) + old(input)[..l]
      ensures l <= 0 ==> input == old(input) && data[..] == old(data[..])
      ensures old(events) != [] && old(events[0]).Chunk? && old(input) != [] ==> l > 0
      ensures l == -2 ==> old(events) != [] && old(events[0]) == Failed
    {
      if events == [] {
        return -1;
      }
      var e := events[0];
      events := events[1..];
      match e {
        case Again => return -1;
        case Closed => return 0;
        case Failed => return -2;
        case Chunk(most) =>
          if input == [] {
            return -1;
          }
          var n := if most < want then most else want;
          n := if n < |input| then n else |input|;
          Write(data, offset, input[..n]);
          input := input[n..];
          return n;
      }
    }

    /** One call of handle_client, after authentication. A partial frame is dropped
        at the end; so the buffer starts empty. */
    method HandleClient(ok: seq<byte> -> bool)
      returns (terminated: bool, more: bool, ghost frames: seq<seq<byte>>, ghost interrupted: bool)
      requires offset == 0 && size == HEADER_LENGTH
      modifies this
      ensures offset == 0 && size == HEADER_LENGTH
      ensures handled == old(handled) + frames
      ensures old(input) == [] ==> terminated && frames == [] && input == []
      ensures old(input) != [] ==>
        var r := Serve(old(input), MESSAGE_LIMIT, ok);
        && frames <= r.frames
        && (!interrupted ==> frames == r.frames && input == r.rest && terminated == r.terminated)
        && (!interrupted ==> (more <==> |frames| == MESSAGE_LIMIT && !terminated && input != []))
      ensures old(Steady(events, |input|)) ==> !interrupted && (more ==> Steady(events, |input|))
    {
      if input == [] {  // recv with MSG_PEEK finds nothing
        return true, false, [], false;
      }
      data := new byte[HEADER_LENGTH];
      var verdict;
      verdict, more, frames, interrupted := ReadLoop(ok);
      terminated := verdict == Terminate;
      data := new byte[0];
      offset, size := 0, HEADER_LENGTH;
    }

    /** The state between two reads: `s` is the stream from the start of the frame
        being read, of which `offset` bytes are in the buffer. */
    ghost predicate Reading(s: seq<byte>)
      reads this, data
    {
      && offset < size <= data.Length && s == data[..offset] + input
      && (size == HEADER_LENGTH || (HEADER_LENGTH <= offset && size == MessageSize(s) <= MESSAGE_MAX_LENGTH))
    }

    /** The read loop. `frames` are the frames handled; `interrupted` says that a
        read failed, or came back empty while bytes were still to come. */
    method ReadLoop(ok: seq<byte> -> bool)
      returns (verdict: Verdict, more: bool, ghost frames: seq<seq<byte>>, ghost interrupted: bool)
      requires offset == 0 && size == HEADER_LENGTH <= data.Length
      modifies this, data
      ensures handled == old(handled) + frames
      ensures var r := Serve(old(input), MESSAGE_LIMIT, ok);
        && frames <= r.frames
        && (!interrupted ==> frames == r.frames && input == r.rest && (verdict == Terminate <==> r.terminated))
      ensures !interrupted ==> (more <==> |frames| == MESSAGE_LIMIT && verdict == Cleanup && input != [])
      ensures old(Steady(events, |input|)) ==> !interrupted && (more ==> Steady(events, |input|))
    {
      hide Serve, MessageSize, After, Steady, Cutting, Sized;
      var limit := MESSAGE_LIMIT;
      frames := [];
      ghost var s, r := input, Serve(input, MESSAGE_LIMIT, ok);
      CuttingStart(s, limit, ok);
      assert data[..0] + input == input;
      while true
        invariant Reading(s) && 0 < limit && Cutting(r, s, limit, ok, frames)
        invariant limit == MESSAGE_LIMIT - |frames| && handled == old(handled) + frames
        invariant data == old(data) || fresh(data)
        invariant old(Steady(events, |input|)) ==> Steady(events, |input|)
        decreases |events|
      {
        var turn;
        ghost var frame;
        ghost var front := frames;
        turn, frame := Turn(ok, limit, s);
        frames := frames + frame;
        match turn {
          case Stop(v, m, i) =>
            CuttingStop(r, s, limit, ok, front, frame, input, v == Terminate);
            return v, m, frames, i;
          case Next =>
            assert frames == front;
          case Handled =>
            CuttingNext(r, s, limit, ok, front, frame);
            s := s[|frame[0]|..];
            limit := limit - 1;
        }
      }
    }

    /** One turn of the read loop: a read, and the frame it completes, if any. */
    method Turn(ok: seq<byte> -> bool, limit: nat, ghost s: seq<byte>)
      returns (turn: Turned, ghost frame: seq<seq<byte>>)
      requires Reading(s) && limit > 0
      modifies this, data
      ensures data == old(data) || fresh(data)
      ensures |frame| <= 1 && handled == old(handled) + frame
      ensures !turn.Stop? ==> |events| < |old(events)| && (old(Steady(events, |input|)) ==> Steady(events, |input|))
      ensures turn.Next? ==> frame == [] && Reading(s)
      ensures turn.Handled? ==>
        && |frame| == 1 && limit > 1 && |frame[0]| <= |s| && Reading(s[|frame[0]|..])
        && Serve(s, limit, ok) == After(frame, Serve(s[|frame[0]|..], limit - 1, ok))
      ensures turn.Handled? ==> Sized(frame[0]) && ok(frame[0]) && s[..|frame[0]|] == frame[0]
      ensures turn.Stop? && frame != [] ==> !ok(frame[0]) || limit == 1
      ensures turn.Stop? && !turn.interrupted ==> Serve(s, limit, ok) == Served(frame, input, turn.verdict == Terminate)
      ensures turn.Stop? && !turn.interrupted ==>
        (turn.more <==> |frame| == limit && turn.verdict == Cleanup && input != [])
      ensures turn.Stop? && turn.interrupted ==> frame == []
      ensures turn.Stop? && old(Steady(events, |input|)) ==>
        !turn.interrupted && (turn.more ==> Steady(events, |input|))
    {
      frame := [];
      var l := Read(size - offset);
      if l < 0 {
        Incomplete(s, limit, ok);
        if l != -1 {
          return Stop(Terminate, false, true), [];
        }
        return Stop(Cleanup, false, input != []), [];
      } else if l == 0 {
        Incomplete(s, limit, ok);
        return Stop(Cleanup, false, input != []), [];
      }
      offset := offset + l;
      assert s == data[..offset] + input;
      if offset < HEADER_LENGTH {
        return Next, [];
      }
      turn, frame := Complete(ok, limit, s);
    }

    /** buxton_wire_handle_response: the same loop without a limit. Frames that parse are
        counted. It is followed to the end, or to the first frame that is trouble. */
    method HandleResponses()
      returns (r: int, followed: bool, ghost frames: seq<seq<byte>>, ghost interrupted: bool)
      requires offset == 0 && size == HEADER_LENGTH
      modifies this
      ensures handled == old(handled) + frames
      ensures var all := Serve(old(input), |old(input)| + 1, Always);
        && frames <= all.frames
        && (followed ==> Untroubled(frames))
        && (!followed ==> !interrupted && EndsInTrouble(frames))
        && (interrupted ==> r == Count(Parses, frames))
        && (!interrupted ==> (followed <==> Untroubled(all.frames)))
        && (followed && !interrupted ==>
              && frames == all.frames && input == all.rest
              && r == if all.terminated then -1 else Count(Parses, frames))
      ensures old(Steady(events, |input|)) ==> !interrupted
    {
      hide Serve, MessageSize, After, Steady, Count, Untroubled, Trouble, Stale, Decode, Handling, Cutting;
      data := new byte[HEADER_LENGTH];
      frames, r := [], 0;
      var stale := false;  // r_list is not NULL: the last list parsed, freed
      ghost var s, limit: nat, all := input, |input| + 1, Serve(input, |input| + 1, Always);
      CuttingStart(s, limit, Always);
      HandlingStart();
      assert data[..0] + input == input;
      while true
        invariant Reading(s) && |s| < limit && Cutting(all, s, limit, Always, frames) && Handling(frames, r, stale)
        invariant handled == old(handled) + frames && fresh(data)
        invariant old(Steady(events, |input|)) ==> Steady(events, |input|)
        decreases |events|
      {
        var turn;
        ghost var frame;
        ghost var front := frames;
        turn, frame := Turn(Always, 2, s);
        CuttingPrefix(all, s, limit, Always, front);
        HandlingMeans(front, r, stale);
        frames := frames + frame;
        match turn {
          case Stop(v, m, i) =>
            assert frame == [] && frames == front;
            ServeStop(s, limit, Always);
            CuttingStop(all, s, limit, Always, front, [], input, v == Terminate);
            return if v == Terminate && !i then -1 else r, true, frames, i;
          case Next =>
            assert frames == front;
          case Handled =>
            ghost var f := frame[0];
            assert frame == [f];
            ServeNext(s, f, limit, Always);
            CuttingNext(all, s, limit, Always, front, frame);
            s, limit := s[|f|..], limit - 1;
            HandlingStep(front, f, r, stale);
            CuttingPrefix(all, s, limit, Always, frames);
            var got := handled[|handled| - 1];
            match Decode(got) {
              case Parsed(message) =>
                stale := message.list != [];
                r := r + 1;
              case Invalid =>
                if stale {
                  TroublePrefix(frames, all.frames);
                  return r, false, frames, false;
                }
              case Short =>
                TroublePrefix(frames, all.frames);
                return r, false, frames, false;
            }
        }
      }
    }

    /** The stream ended inside a frame. */
    lemma Incomplete(s: seq<byte>, limit: nat, ok: seq<byte> -> bool)
      requires Reading(s) && limit > 0
      ensures input == [] ==> Serve(s, limit, ok) == Served([], [], false)
    {
    }

    /** The part of a turn after the header is in: find the size, make room, and
        hand over the frame when it is complete. */
    method Complete(ok: seq<byte> -> bool, limit: nat, ghost s: seq<byte>)
      returns (turn: Turned, ghost frame: seq<seq<byte>>)
      requires limit > 0 && HEADER_LENGTH <= offset <= size <= data.Length && s == data[..offset] + input
      requires size == HEADER_LENGTH || size == MessageSize(s) <= MESSAGE_MAX_LENGTH
      modifies this`handled, this`data, this`offset, this`size
      ensures data == old(data) || fresh(data)
      ensures |frame| <= 1 && handled == old(handled) + frame
      ensures turn.Next? ==> frame == [] && Reading(s)
      ensures turn.Handled? ==>
        && |frame| == 1 && limit > 1 && |frame[0]| <= |s| && Reading(s[|frame[0]|..])
        && Serve(s, limit, ok) == After(frame, Serve(s[|frame[0]|..], limit - 1, ok))
      ensures turn.Handled? ==> Sized(frame[0]) && ok(frame[0]) && s[..|frame[0]|] == frame[0]
      ensures turn.Stop? && frame != [] ==> !ok(frame[0]) || limit == 1
      ensures turn.Stop? ==> !turn.interrupted && Serve(s, limit, ok) == Served(frame, input, turn.verdict == Terminate)
      ensures turn.Stop? ==> (turn.more <==> |frame| == limit && turn.verdict == Cleanup && input != [])
    {
      if size == HEADER_LENGTH {
        size := GetMessageSize(data, offset);
        SizePrefix(data[..offset], input);
        if size == 0 || size > MESSAGE_MAX_LENGTH {
          return Stop(Terminate, false, false), [];
        }
      }
      if size != HEADER_LENGTH {
        data := Realloc(data, offset, size);
      }
      if size > offset {
        return Next, [];
      }
      assert size == offset;  // the other case is an abort in the source
      var got := data[..size];
      assert s[..size] == got && s[size..] == input;
      SizePrefix(got, input);
      handled := handled + [got];
      frame := [got];
      if !ok(got) {
        return Stop(Terminate, false, false), frame;
      }
      if limit > 1 {
        size, offset := HEADER_LENGTH, 0;
        return Handled, frame;
      }
      return Stop(Cleanup, input != [], false), frame;
    }
  }

  /** The client's loop never stops because of what a frame says. */
  predicate Always(frame: seq<byte>) {
    true
  }

  predicate Parses(frame: seq<byte>) {
    Decode(frame).Parsed?
  }

  /** The last frame that parsed had parameters. Its list was freed, and the pointer to
      it is still there. */
  predicate Stale(frames: seq<seq<byte>>) {
    if frames == [] then false
    else
      match Decode(frames[|frames| - 1])
      case Parsed(message) => message.list != []
      case _ => Stale(frames[..|frames| - 1])
  }

  /** At a frame that does not parse while the list is stale, the list is freed again; a
      frame whose parameters run past it is read beyond its end. */
  predicate Trouble(frames: seq<seq<byte>>, i: nat)
    requires i < |frames|
  {
    Decode(frames[i]).Short? || (Decode(frames[i]).Invalid? && Stale(frames[..i]))
  }

  ghost predicate Untroubled(frames: seq<seq<byte>>) {
    forall i :: 0 <= i < |frames| ==> !Trouble(frames, i)
  }

  lemma NoTrouble()
    ensures Untroubled([]) && !Stale([])
  {
  }

  lemma TroubleSnoc(frames: seq<seq<byte>>, f: seq<byte>)
    requires Untroubled(frames)
    ensures Trouble(frames + [f], |frames|) <==> Decode(f).Short? || (Decode(f).Invalid? && Stale(frames))
    ensures !Trouble(frames + [f], |frames|) ==> Untroubled(frames + [f])
    ensures Stale(frames + [f]) ==
      match Decode(f)
      case Parsed(message) => message.list != []
      case _ => Stale(frames)
    ensures (frames + [f])[..|frames|] == frames
  {
    hide Decode;
    var all := frames + [f];
    assert all[..|frames|] == frames;
    forall i | 0 <= i < |frames| ensures !Trouble(all, i) {
      assert !Trouble(frames, i) && all[..i] == frames[..i];
    }
  }

  lemma TroublePrefix(frames: seq<seq<byte>>, all: seq<seq<byte>>)
    requires frames <= all && frames != [] && Trouble(frames, |frames| - 1)
    ensures !Untroubled(all)
  {
    hide Decode;
    var i := |frames| - 1;
    assert all[..i] == frames[..i] && all[i] == frames[i];
    assert Trouble(all, i);
  }

  /** The last frame is the first that is trouble. */
  ghost predicate EndsInTrouble(frames: seq<seq<byte>>) {
    frames != [] && Trouble(frames, |frames| - 1) && Untroubled(frames[..|frames| - 1])
  }

  /** What the client's loop knows of the frames so far. */
  ghost predicate Handling(frames: seq<seq<byte>>, r: int, stale: bool) {
    r == Count(Parses, frames) && Untroubled(frames) && stale == Stale(frames)
  }

  lemma HandlingStart()
    ensures Handling([], 0, false)
  {
  }

  lemma HandlingMeans(frames: seq<seq<byte>>, r: int, stale: bool)
    requires Handling(frames, r, stale)
    ensures r == Count(Parses, frames) && Untroubled(frames)
  {
  }

  lemma HandlingStep(front: seq<seq<byte>>, f: seq<byte>, r: int, stale: bool)
    requires Handling(front, r, stale)
    ensures match Decode(f)
      case Parsed(message) => Handling(front + [f], r + 1, message.list != [])
      case Invalid => if stale then EndsInTrouble(front + [f]) else Handling(front + [f], r, stale)
      case Short => EndsInTrouble(front + [f])
  {
    hide Decode, Trouble, Untroubled, Stale;
    CountSnoc(Parses, front, [f]);
    TroubleSnoc(front, f);
  }

  /** Of the stream `all` was cut from, `s` is left, behind `frames`. */
  ghost predicate Cutting(all: Served, s: seq<byte>, limit: nat, ok: seq<byte> -> bool, frames: seq<seq<byte>>) {
    all == After(frames, Serve(s, limit, ok))
  }

  lemma CuttingStart(s: seq<byte>, limit: nat, ok: seq<byte> -> bool)
    ensures Cutting(Serve(s, limit, ok), s, limit, ok, [])
  {
    hide Serve;
    AfterEnds([], Serve(s, limit, ok));
  }

  lemma CuttingPrefix(all: Served, s: seq<byte>, limit: nat, ok: seq<byte> -> bool, frames: seq<seq<byte>>)
    requires Cutting(all, s, limit, ok, frames)
    ensures frames <= all.frames
  {
    hide Serve;
    AfterEnds(frames, Serve(s, limit, ok));
  }

  lemma CuttingNext(all: Served, s: seq<byte>, limit: nat, ok: seq<byte> -> bool,
      front: seq<seq<byte>>, frame: seq<seq<byte>>)
    requires Cutting(all, s, limit, ok, front) && limit > 0
    requires |frame| == 1 && |frame[0]| <= |s|
    requires Serve(s, limit, ok) == After(frame, Serve(s[|frame[0]|..], limit - 1, ok))
    ensures Cutting(all, s[|frame[0]|..], limit - 1, ok, front + frame)
  {
    hide Serve, After;
    AfterTwice(front, frame, Serve(s[|frame[0]|..], limit - 1, ok));
  }

  lemma CuttingStop(all: Served, s: seq<byte>, limit: nat, ok: seq<byte> -> bool,
      front: seq<seq<byte>>, frame: seq<seq<byte>>, rest: seq<byte>, terminated: bool)
    requires Cutting(all, s, limit, ok, front)
    ensures Serve(s, limit, ok) == Served(frame, rest, terminated) ==> all == Served(front + frame, rest, terminated)
    ensures frame == [] ==> front + frame <= all.frames
  {
    hide Serve;
    AfterEnds(front, Serve(s, limit, ok));
  }

  /** What the daemon sends is no trouble. */
  lemma SentUntroubled(frames: seq<seq<byte>>)
    requires forall f :: f in frames ==> Parses(f)
    ensures Untroubled(frames)
  {
    hide Decode;
    forall i | 0 <= i < |frames| ensures !Trouble(frames, i) {
      assert Parses(frames[i]);
    }
  }

  lemma MessageParses(msg: nat, msgid: uint32, list: seq<Data>)
    requires Encodable(msg, list) && Portable(list)
    ensures Parses(Encode(msg, msgid, list))
  {
    hide Decode, Encode;
    RoundTrip(msg, msgid, list, []);
    assert Encode(msg, msgid, list) + [] == Encode(msg, msgid, list);
  }

  /** An answer, and behind it a frame that is well cut but has another control code. */
  lemma TroubledStream()
    ensures var answer: seq<byte> := Encode(CONTROL_STATUS, 1, [Int32(0)]);
      var other: seq<byte> := [0, 0, 8, 0, 16, 0, 0, 0, 2, 0, 0, 0, 0, 0, 0, 0];
      && Serve(Concat([answer, other]), 3, Always) == Served([answer, other], [], false)
      && Untroubled([answer]) && Trouble([answer, other], 1)
  {
    var list := [Int32(0)];
    var answer, other: seq<byte> :=
      Encode(CONTROL_STATUS, 1, list), [0, 0, 8, 0, 16, 0, 0, 0, 2, 0, 0, 0, 0, 0, 0, 0];
    OneAnswer();
    hide Encode, Serve, Stale;
    OtherCode();
    var frames := [answer, other];
    ServeFrames(frames, [], 3, Always);
    NothingServed();
    assert Concat(frames) + [] == Concat(frames);
    assert frames + [] == frames;
    SentUntroubled([answer]);
    NoTrouble();
    TroubleSnoc([], answer);
    TroubleSnoc([answer], other);
    assert [] + [answer] == [answer] && [answer] + [other] == frames;
  }

  lemma OneAnswer()
    ensures var answer := Encode(CONTROL_STATUS, 1, [Int32(0)]);
      Sized(answer) && Decode(answer) == Parsed(Message(CONTROL_STATUS, 1, [Int32(0)]))
  {
    hide Decode;
    var list := [Int32(0)];
    var answer := Encode(CONTROL_STATUS, 1, list);
    RoundTrip(CONTROL_STATUS, 1, list, []);
    SizeField(CONTROL_STATUS, 1, list, []);
    assert answer + [] == answer;
    assert list[1..] == [] && Params(list) == Param(list[0]) + Params([]);
  }

  lemma OtherCode()
    ensures var other: seq<byte> := [0, 0, 8, 0, 16, 0, 0, 0, 2, 0, 0, 0, 0, 0, 0, 0];
      Sized(other) && Decode(other) == Invalid
  {
    var other: seq<byte> := [0, 0, 8, 0, 16, 0, 0, 0, 2, 0, 0, 0, 0, 0, 0, 0];
    assert other[4..8] == [16, 0, 0, 0] && other[0..2] == [0, 0];
    assert UnLE([16, 0, 0, 0]) == 16 + 256 * UnLE([0, 0, 0]);
    assert UnLE([0, 0, 0]) == 256 * UnLE([0, 0]) && UnLE([0, 0]) == 256 * UnLE([0]);
  }

  lemma NothingServed()
    ensures Serve([], 1, Always) == Served([], [], false)
  {
  }

  function Count(p: seq<byte> -> bool, frames: seq<seq<byte>>): nat {
    if frames == [] then 0 else (if p(frames[0]) then 1 else 0) + Count(p, frames[1..])
  }

  lemma {:induction false} CountSnoc(p: seq<byte> -> bool, frames: seq<seq<byte>>, frame: seq<seq<byte>>)
    requires |frame| <= 1
    ensures Count(p, []) == 0
    ensures Count(p, frames + frame) == Count(p, frames) + if frame != [] && p(frame[0]) then 1 else 0
  {
    if frames == [] {
      assert [] + frame == frame;
    } else {
      assert (frames + frame)[1..] == frames[1..] + frame;
      CountSnoc(p, frames[1..], frame);
    }
  }

  /** Where no frame is complete the limit does not matter. */
  lemma ServeStop(s: seq<byte>, limit: nat, ok: seq<byte> -> bool)
    requires limit > 0 && forall f :: ok(f)
    ensures Serve(s, 2, ok).frames == [] ==> Serve(s, limit, ok) == Serve(s, 2, ok)
  {
  }

  lemma SizePrefix(s: seq<byte>, t: seq<byte>)
    requires |s| >= HEADER_LENGTH
    ensures MessageSize(s + t) == MessageSize(s)
  {
    assert (s + t)[4..8] == s[4..8];
  }

  /** realloc that keeps at least the first `used` bytes. */
  method Realloc(data: array<byte>, used: nat, size: nat) returns (q: array<byte>)
    requires used <= data.Length && used <= size
    ensures q.Length >= size && q[..used] == data[..used] && (q == data || fresh(q))
  {
    if data.Length == size {
      return data;
    }
    q := new byte[size];
    forall i | 0 <= i < used {
      q[i] := data[i];
    }
  }

  // ---- streams of well-formed frames ----

  function Concat(frames: seq<seq<byte>>): seq<byte> {
    if frames == [] then [] else frames[0] + Concat(frames[1..])
  }

  /** A frame whose size field is right and which is not too long. */
  predicate Sized(frame: seq<byte>) {
    HEADER_LENGTH <= |frame| <= MESSAGE_MAX_LENGTH && MessageSize(frame) == |frame|
  }

  lemma ServeOne(f: seq<byte>, t: seq<byte>, limit: nat, ok: seq<byte> -> bool)
    requires limit > 0 && Sized(f) && ok(f)
    ensures Serve(f + t, limit, ok) == After([f], Serve(t, limit - 1, ok))
  {
    hide MessageSize;
    var s := f + t;
    SizePrefix(f, t);
    assert s[..|f|] == f && s[|f|..] == t;
  }

  lemma ServeNext(s: seq<byte>, f: seq<byte>, limit: nat, ok: seq<byte> -> bool)
    requires limit > 0 && Sized(f) && ok(f) && f <= s
    ensures Serve(s, limit, ok) == After([f], Serve(s[|f|..], limit - 1, ok))
  {
    hide Serve;
    assert s == f + s[|f|..];
    ServeOne(f, s[|f|..], limit, ok);
  }

  /** Of a stream of well-formed frames the handler gets exactly those frames, in
      order, up to the limit; no byte behind the last handled frame is read then. */
  lemma {:induction false} ServeFrames(frames: seq<seq<byte>>, rest: seq<byte>, limit: nat, ok: seq<byte> -> bool)
    requires |frames| <= limit && forall f :: f in frames ==> Sized(f) && ok(f)
    ensures Serve(Concat(frames) + rest, limit, ok) == After(frames, Serve(rest, limit - |frames|, ok))
  {
    hide MessageSize, After;
    var s := Concat(frames) + rest;
    if frames == [] {
      assert s == rest;
      AfterEnds([], Serve(rest, limit, ok));
    } else {
      var f, t := frames[0], Concat(frames[1..]) + rest;
      assert f in frames && s == f + t;
      ServeFrames(frames[1..], rest, limit - 1, ok);
      ServeOne(f, t, limit, ok);
      AfterTwice([f], frames[1..], Serve(rest, limit - |frames|, ok));
      assert [f] + frames[1..] == frames;
    }
  }

  lemma ServeExactly(frames: seq<seq<byte>>, rest: seq<byte>, ok: seq<byte> -> bool)
    requires |frames| <= MESSAGE_LIMIT && forall f :: f in frames ==> Sized(f) && ok(f)
    ensures |frames| == MESSAGE_LIMIT ==> Serve(Concat(frames) + rest, MESSAGE_LIMIT, ok) == Served(frames, rest, false)
    ensures rest == [] ==> Serve(Concat(frames), MESSAGE_LIMIT, ok) == Served(frames, [], false)
  {
    ServeFrames(frames, rest, MESSAGE_LIMIT, ok);
    assert frames + [] == frames;
    assert rest == [] ==> Concat(frames) + rest == Concat(frames);
  }

  /** What ends a stream of fewer than 32 such frames: a partial frame is forgotten; a
      size under 8 or over 32768 bytes, or a frame the handler does not take, drops the
      connection, with what follows unread. */
  lemma ServeEnds(frames: seq<seq<byte>>, rest: seq<byte>, ok: seq<byte> -> bool)
    requires |frames| < 32 && forall f :: f in frames ==> Sized(f) && ok(f)
    ensures var r, n := Serve(Concat(frames) + rest, MESSAGE_LIMIT, ok), if |rest| < 8 then 8 else UnLE(rest[4..8]);
      && (|rest| < 8 || (8 <= n <= 32768 && |rest| < n) ==> r == Served(frames, [], false))
      && (|rest| >= 8 && (n < 8 || n > 32768) ==> r == Served(frames, rest[8..], true))
      && (|rest| >= 8 && 8 <= n <= 32768 && n <= |rest| && !ok(rest[..n]) ==>
            r == Served(frames + [rest[..n]], rest[n..], true))
  {
    hide UnLE;
    ServeFrames(frames, rest, MESSAGE_LIMIT, ok);
    assert frames + [] == frames;
  }
}

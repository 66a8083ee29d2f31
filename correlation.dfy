/** The wait for the portal's answer in `NFD_OpenDialogN`: every queued
    message is popped in turn until a `Response` signal of the Request
    interface turns up, which is then read; when the queue runs dry without
    a URI, the connection is serviced (`dbus_connection_read_write`, which
    blocks) and the queue is looked at again.

    The connection is an oracle: `queue` is what is already queued when the
    wait starts, and each element of `wakes` is what one call of
    `dbus_connection_read_write` does: deliver some messages behind the ones
    still queued, or report that the connection is closed. When the oracle
    has no more wakes, the call is still blocked (`Waiting`). */
module Correlation {
  import opened Wrappers
  import opened DBusValues
  import opened Response

  const REQUEST_IFACE: string := "org.freedesktop.portal.Request"
  const RESPONSE_MEMBER: string := "Response"

  /** `dbus_message_is_signal(msg, "org.freedesktop.portal.Request",
      "Response")`: the kind, interface and member are checked; the object
      path and the sender are not. */
  predicate IsResponse(m: Message)
  {
    m.kind == Signal && m.iface == REQUEST_IFACE && m.member == RESPONSE_MEMBER
  }

  /** One return of `dbus_connection_read_write`: `true` with what it read,
      or `false` once the connection is closed. */
  datatype Wake = Delivered(msgs: seq<Message>) | Disconnected

  /** The inner loop: it ends when the queue is empty, or at the first
      `Response`, with what reading it gave and what is still queued. */
  datatype Drained = Exhausted | Responded(st: Status, file: Option<string>, rest: seq<Message>)

  /** How the wait ends: with the URI, with the status of a response that
      was not OK, with the connection closed before any URI, or not yet. */
  datatype Outcome = Got(uri: string) | Stopped(st: Status) | NoReply | Waiting

  function Drain(queue: seq<Message>): (d: Drained)
    ensures d.Responded? ==> |d.rest| < |queue|
  {
    if queue == [] then Exhausted
    else if IsResponse(queue[0]) then
      var (st, file) := DecodeResponse(queue[0].args, None);
      Responded(st, file, queue[1..])
    else Drain(queue[1..])
  }

  /** The two loops: a response that is not OK ends the wait with its
      status, and one that gives a URI with the URI; otherwise the
      connection is serviced and what is left in the queue, then what was
      delivered, is looked at. */
  function Wait(queue: seq<Message>, wakes: seq<Wake>): Outcome
    decreases |wakes|
  {
    var d := Drain(queue);
    if d.Responded? && !d.st.Okay? then Stopped(d.st)
    else if d.Responded? && d.file.Some? then Got(d.file.value)
    else if wakes == [] then Waiting
    else if wakes[0].Disconnected? then NoReply
    else Wait((if d.Responded? then d.rest else []) + wakes[0].msgs, wakes[1..])
  }

  /** The inner `while (true)` loop. */
  method PopUntilResponse(queue: seq<Message>) returns (d: Drained)
    ensures d == Drain(queue)
  {
    var q := queue;
    while q != []
      invariant Drain(queue) == Drain(q)
      decreases |q|
    {
      var msg := q[0];
      q := q[1..];
      if IsResponse(msg) {
        var st, file := ReadResponseParamsSingle(msg.args, None);
        return Responded(st, file, q);
      }
    }
    return Exhausted;
  }

  /** The outer `do ... while (dbus_connection_read_write(...))` loop. */
  method WaitForResponse(queue: seq<Message>, wakes: seq<Wake>) returns (o: Outcome)
    ensures o == Wait(queue, wakes)
  {
    var q := queue;
    var w := 0;
    while true
      invariant w <= |wakes|
      invariant Wait(queue, wakes) == Wait(q, wakes[w..])
      decreases |wakes| - w
    {
      var d := PopUntilResponse(q);
      if d.Responded? && !d.st.Okay? {
        return Stopped(d.st);
      }
      var file := if d.Responded? then d.file else None;
      if file.Some? {
        return Got(file.value);
      }
      if w == |wakes| {
        return Waiting;
      }
      if wakes[w].Disconnected? {
        break;
      }
      assert wakes[w..][1..] == wakes[w + 1..];
      q := (if d.Responded? then d.rest else []) + wakes[w].msgs;
      w := w + 1;
    }
    o := NoReply;
  }

  /** Messages other than a `Response` signal are dropped unread. */
  lemma {:induction false} NonResponsesSkipped(junk: seq<Message>, queue: seq<Message>)
    requires forall i :: 0 <= i < |junk| ==> !IsResponse(junk[i])
    ensures Drain(junk + queue) == Drain(queue)
  {
    if junk != [] {
      assert (junk + queue)[0] == junk[0];
      assert (junk + queue)[1..] == junk[1..] + queue;
      assert forall i :: 0 <= i < |junk| - 1 ==> junk[1..][i] == junk[i + 1];
      NonResponsesSkipped(junk[1..], queue);
    } else {
      assert junk + queue == queue;
    }
  }

  /** The first `Response` decides the inner loop, whatever follows it. */
  lemma FirstResponseRead(junk: seq<Message>, r: Message, rest: seq<Message>)
    requires forall i :: 0 <= i < |junk| ==> !IsResponse(junk[i])
    requires IsResponse(r)
    ensures Drain(junk + [r] + rest) == Responded(DecodeResponse(r.args, None).0, DecodeResponse(r.args, None).1, rest)
  {
    NonResponsesSkipped(junk, [r] + rest);
    assert junk + [r] + rest == junk + ([r] + rest);
    assert ([r] + rest)[0] == r && ([r] + rest)[1..] == rest;
  }

  /** A cancel or an error in the first `Response` ends the wait with that
      status, whatever else is queued or arrives later. */
  lemma StopOnCancelOrError(junk: seq<Message>, r: Message, rest: seq<Message>, wakes: seq<Wake>)
    requires forall i :: 0 <= i < |junk| ==> !IsResponse(junk[i])
    requires IsResponse(r) && !DecodeResponse(r.args, None).0.Okay?
    ensures Wait(junk + [r] + rest, wakes) == Stopped(DecodeResponse(r.args, None).0)
  {
    FirstResponseRead(junk, r, rest);
  }

  /** A `Response` whose results hold a URI ends the wait with it. The
      signal's object path plays no part: a `Response` for another request
      is taken just the same. */
  lemma UriEndsWait(junk: seq<Message>, r: Message, rest: seq<Message>, wakes: seq<Wake>, uri: string)
    requires forall i :: 0 <= i < |junk| ==> !IsResponse(junk[i])
    requires IsResponse(r) && DecodeResponse(r.args, None) == (Okay, Some(uri))
    ensures Wait(junk + [r] + rest, wakes) == Got(uri)
  {
    FirstResponseRead(junk, r, rest);
  }

  /** An OK `Response` without `uris` ends only the inner loop: the
      connection is serviced next, and what was queued behind the response
      comes before what that delivers. */
  lemma OkWithoutUriKeepsWaiting(junk: seq<Message>, r: Message, rest: seq<Message>, msgs: seq<Message>, wakes: seq<Wake>)
    requires forall i :: 0 <= i < |junk| ==> !IsResponse(junk[i])
    requires IsResponse(r) && DecodeResponse(r.args, None) == (Okay, None)
    ensures Wait(junk + [r] + rest, [Delivered(msgs)] + wakes) == Wait(rest + msgs, wakes)
    ensures Wait(junk + [r] + rest, [Disconnected] + wakes) == NoReply
  {
    FirstResponseRead(junk, r, rest);
    assert ([Delivered(msgs)] + wakes)[1..] == wakes;
  }

  /** A closed connection before any `Response` ends the wait with no reply. */
  lemma ClosedBeforeResponse(queue: seq<Message>, wakes: seq<Wake>)
    requires forall i :: 0 <= i < |queue| ==> !IsResponse(queue[i])
    ensures Wait(queue, [Disconnected] + wakes) == NoReply
  {
    NonResponsesSkipped(queue, []);
    assert queue + [] == queue;
  }

  /** A `Response` that is OK with no results, as the portal sends it. */
  function EmptyOk(path: string): Message
  {
    Message(Signal, REQUEST_IFACE, RESPONSE_MEMBER, path, [U32(0), Array("{sv}", [])])
  }

  /** A `Response` carrying one URI. */
  function UriResponse(path: string, uri: string): Message
  {
    Message(Signal, REQUEST_IFACE, RESPONSE_MEMBER, path, [U32(0), Array("{sv}", [UrisEntry(uri)])])
  }

  /** The signal carrying one URI reads as OK with that URI. */
  lemma UriDecoded(path: string, uri: string)
    ensures DecodeResponse(UriResponse(path, uri).args, None) == (Okay, Some(uri))
  {
    FirstUriTaken([], uri, [], None);
    assert [Str(uri)] + Strs([]) == [Str(uri)];
    assert [] + [UrisEntry(uri)] == [UrisEntry(uri)];
  }

  /** A queued signal carrying one URI ends the wait with that URI. */
  lemma UriResponseEndsWait(path: string, uri: string, wakes: seq<Wake>)
    ensures Wait([UriResponse(path, uri)], wakes) == Got(uri)
  {
    var u := UriResponse(path, uri);
    UriDecoded(path, uri);
    UriEndsWait([], u, [], wakes, uri);
    assert [] + [u] + [] == [u];
  }

  /** After an OK response without `uris`, a URI response already queued
      behind it is not looked at when the connection then turns out to be
      closed. */
  lemma QueuedUriLostOnClose(path: string, uri: string)
    ensures Wait([EmptyOk(path), UriResponse(path, uri)], [Disconnected]) == NoReply
  {
    var ok := EmptyOk(path);
    var u := UriResponse(path, uri);
    assert DecodeResponse(ok.args, None) == (Okay, None) by {
      NoUrisKeepsFile([], None);
    }
    FirstResponseRead([], ok, [u]);
    assert [] + [ok] + [u] == [ok, u];
  }

  /** What the connection delivers over all the wakes. */
  function Arrived(wakes: seq<Wake>): seq<Message>
  {
    if wakes == [] then []
    else (if wakes[0].Delivered? then wakes[0].msgs else []) + Arrived(wakes[1..])
  }

  /** The inner loop reads the first `Response` of the queue and leaves
      what follows it queued. */
  lemma {:induction false} DrainSound(queue: seq<Message>)
    requires Drain(queue).Responded?
    ensures exists i ::
              0 <= i < |queue| && IsResponse(queue[i]) &&
              DecodeResponse(queue[i].args, None) == (Drain(queue).st, Drain(queue).file) &&
              Drain(queue).rest == queue[i + 1..]
  {
    if IsResponse(queue[0]) {
      assert IsResponse(queue[0]) && DecodeResponse(queue[0].args, None) == (Drain(queue).st, Drain(queue).file);
    } else {
      DrainSound(queue[1..]);
      var i :| 0 <= i < |queue[1..]| && IsResponse(queue[1..][i]) &&
        DecodeResponse(queue[1..][i].args, None) == (Drain(queue[1..]).st, Drain(queue[1..]).file) &&
        Drain(queue[1..]).rest == queue[1..][i + 1..];
      assert queue[1..][i + 1..] == queue[i + 2..];
      assert queue[1..][i] == queue[i + 1];
    }
  }

  /** A URI the wait returns was given by a `Response` that was queued or
      delivered, read with OK status. */
  lemma {:induction false} WaitSound(queue: seq<Message>, wakes: seq<Wake>)
    requires Wait(queue, wakes).Got?
    ensures exists m ::
              m in queue + Arrived(wakes) && IsResponse(m) &&
              DecodeResponse(m.args, None) == (Okay, Some(Wait(queue, wakes).uri))
    decreases |wakes|
  {
    var d := Drain(queue);
    var uri := Wait(queue, wakes).uri;
    if d.Responded? && d.file.Some? {
      DrainSound(queue);
      var i :| 0 <= i < |queue| && IsResponse(queue[i]) &&
        DecodeResponse(queue[i].args, None) == (d.st, d.file) && d.rest == queue[i + 1..];
      assert queue[i] in queue + Arrived(wakes);
    } else {
      var rest := if d.Responded? then d.rest else [];
      assert forall m :: m in rest ==> m in queue by {
        if d.Responded? {
          DrainSound(queue);
        }
      }
      var next := rest + wakes[0].msgs;
      WaitSound(next, wakes[1..]);
      var m :| m in next + Arrived(wakes[1..]) && IsResponse(m) &&
        DecodeResponse(m.args, None) == (Okay, Some(Wait(next, wakes[1..]).uri));
      assert Arrived(wakes) == wakes[0].msgs + Arrived(wakes[1..]);
      assert m in queue + Arrived(wakes);
    }
  }
}

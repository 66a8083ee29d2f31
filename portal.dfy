/** The process-wide state of the portal backend and its one public
    operation, `NFD_OpenDialogN`, with the signal subscription it holds
    while it waits (`DBusSignalSubscriptionHandler`).

    The bus is not modelled: what it answers is an oracle (`Bus`), and what
    is asked of it is recorded, in order, in `Backend.calls`. Match rules are
    counted per connection, so what is registered is a multiset of rules. */
module Portal {
  import opened Wrappers
  import opened Strings
  import opened DBusValues
  import opened RandomToken
  import opened RequestHandle
  import opened MatchRule
  import opened Request
  import opened FileUri
  import opened Correlation
  import opened Response

  const MSG_REPLY_MISSING: string := "D-Bus reply is missing an argument."
  const MSG_REPLY_NOT_PATH: string := "D-Bus reply is not an object path."
  const MSG_NO_REPLY: string := "D-Bus freedesktop portal did not give us a reply."

  /** What `err_ptr` points to: nothing, a static message, or the message
      of the saved bus error `dbus_err`. */
  datatype ErrPtr = Null | Literal(text: string) | BusMessage

  /** A request to the bus: `dbus_bus_add_match` (and whether it succeeded),
      `dbus_bus_remove_match`, and the `OpenFile` method call with its
      arguments. */
  datatype BusCall = AddMatch(rule: string, ok: bool) | RemoveMatch(rule: string) | OpenFile(args: seq<Value>)

  /** What one request does to the registered rules: a successful
      `add_match` counts its rule once more, a `remove_match` once less. */
  function Apply(registered: multiset<string>, c: BusCall): multiset<string>
  {
    match c
    case AddMatch(rule, ok) => if ok then registered + multiset{rule} else registered
    case RemoveMatch(rule) => registered - multiset{rule}
    case OpenFile(_) => registered
  }

  /** What removing the rule `held`, if any, leaves registered. */
  function Dropped(registered: multiset<string>, held: Option<string>): multiset<string>
  {
    if held.Some? then registered - multiset{held.value} else registered
  }

  /** The rules registered after a sequence of requests. */
  function Registered(calls: seq<BusCall>): multiset<string>
  {
    if calls == [] then multiset{} else Apply(Registered(calls[..|calls| - 1]), calls[|calls| - 1])
  }

  lemma RegisteredSnoc(calls: seq<BusCall>, c: BusCall)
    ensures Registered(calls + [c]) == Apply(Registered(calls), c)
  {
    assert (calls + [c])[..|calls + [c]| - 1] == calls;
  }

  /** The rules registered after `calls`, starting from `registered`. */
  function ApplyAll(registered: multiset<string>, calls: seq<BusCall>): multiset<string>
    decreases |calls|
  {
    if calls == [] then registered else ApplyAll(Apply(registered, calls[0]), calls[1..])
  }

  /** Requests made after `calls` act on what `calls` left registered. */
  lemma {:induction false} RegisteredConcat(calls: seq<BusCall>, more: seq<BusCall>)
    ensures Registered(calls + more) == ApplyAll(Registered(calls), more)
    decreases |more|
  {
    if more == [] {
      assert calls + more == calls;
    } else {
      RegisteredSnoc(calls, more[0]);
      assert calls + more == (calls + [more[0]]) + more[1..];
      RegisteredConcat(calls + [more[0]], more[1..]);
    }
  }

  /** Removing the held rule leaves at most the base registrations. */
  lemma DropHeld(registered: multiset<string>, base: multiset<string>, held: string)
    requires registered <= base + multiset{held}
    ensures registered - multiset{held} <= base
  {
    forall x ensures (registered - multiset{held})[x] <= base[x] {
      assert registered[x] <= base[x] + multiset{held}[x];
    }
  }

  /** Registering a new rule from the base leaves at most the base and it. */
  lemma AddHeld(registered: multiset<string>, base: multiset<string>, rule: string, ok: bool)
    requires registered <= base
    ensures Apply(registered, AddMatch(rule, ok)) <= base + multiset{rule}
  {
  }

  /** What the bus answers during one `OpenDialog`: the outcome of the
      first `add_match` (`None` for success, or the error message), the
      reply to `OpenFile` (its arguments, or the error message), the outcome
      of the `add_match` of a rebinding, and the messages for the wait. */
  datatype Bus = Bus(
    firstAdd: Option<string>,
    reply: Result<seq<Value>, string>,
    rebindAdd: Option<string>,
    queue: seq<Message>,
    wakes: seq<Wake>)

  /** The library's globals: the connection's unique name, `err_ptr`,
      `dbus_err`, and what has been asked of the bus so far. */
  class Backend {
    const uniqueName: string
    var errPtr: ErrPtr
    var dbusErr: Option<string>
    var calls: seq<BusCall>
    /** The rules the bus holds for this connection: `Registered(calls)`
        when the requests started from nothing registered. */
    ghost var registered: multiset<string>

    /** `err_ptr` never points into a freed `dbus_err`. */
    predicate Valid()
      reads this
    {
      errPtr.BusMessage? ==> dbusErr.Some?
    }

    /** The state after a successful `NFD_Init`. */
    constructor(uniqueName: string)
      ensures this.uniqueName == uniqueName && errPtr == Null && dbusErr == None && calls == []
      ensures registered == Registered(calls) && Valid()
    {
      this.uniqueName := uniqueName;
      errPtr := Null;
      dbusErr := None;
      calls := [];
      registered := multiset{};
    }

    /** `NFD_GetError`: no error, the last static message, or the text of
      the saved bus error. */
    function GetError(): (r: Option<string>)
      reads this
      requires Valid()
      ensures r.None? <==> errPtr.Null?
      ensures errPtr.Literal? ==> r == Some(errPtr.text)
      ensures errPtr.BusMessage? ==> r == dbusErr
    {
      match errPtr
      case Null => None
      case Literal(text) => Some(text)
      case BusMessage => dbusErr
    }

    /** `NFD_ClearError`: no error is reported afterwards and the saved bus
        error is freed. */
    method ClearError()
      modifies this
      ensures errPtr == Null && dbusErr == None && calls == old(calls) && registered == old(registered)
      ensures Valid() && GetError() == None
    {
      errPtr := Null;
      dbusErr := None;
    }

    /** `NFDi_SetError` with a static message. */
    method SetError(msg: string)
      requires Valid()
      modifies this
      ensures errPtr == Literal(msg) && dbusErr == old(dbusErr) && calls == old(calls) && registered == old(registered)
      ensures Valid() && GetError() == Some(msg)
    {
      errPtr := Literal(msg);
    }

    /** The error hand-over of the bus calls: the saved error is freed, the
        new one moved into its place, and `err_ptr` set to its message. */
    method MoveBusError(msg: string)
      modifies this
      ensures errPtr == BusMessage && dbusErr == Some(msg) && calls == old(calls) && registered == old(registered)
      ensures Valid() && GetError() == Some(msg)
    {
      dbusErr := Some(msg);
      errPtr := BusMessage;
    }

    /** `dbus_bus_add_match`, `dbus_bus_remove_match` or the `OpenFile`
        call: the request is recorded and nothing else changes. */
    method Record(c: BusCall)
      modifies this
      ensures calls == old(calls) + [c] && errPtr == old(errPtr) && dbusErr == old(dbusErr)
      ensures registered == Apply(old(registered), c)
    {
      calls := calls + [c];
      registered := Apply(registered, c);
    }

    /** `NFD_OpenDialogN` for one file, on the oracle `bus`: its status and
        returned path are those of `Dialog`, what it asks of the bus is
        `DialogCalls`, it leaves no rule registered that was not registered
        before, and a failure can be read back with `GetError`. */
    method OpenDialog(filters: seq<FilterItem>, rand: seq<RandomOutcome>, bus: Bus)
      returns (res: Status, outPath: Option<array<char>>)
      requires Valid() && ValidTrace(rand, TOKEN_BYTES) && WalkableFilters(filters)
      requires !Dialog(bus).Blocked?
      modifies this
      ensures Valid()
      ensures outPath.Some? ==> fresh(outPath.value) && outPath.value.Length > 0
      ensures Dialog(bus) == Returned(res, if outPath.Some? then Some(outPath.value[..outPath.value.Length - 1]) else None)
      ensures outPath.Some? ==> outPath.value[outPath.value.Length - 1] == '\0'
      ensures calls == old(calls) + DialogCalls(uniqueName, filters, rand, bus)
      ensures registered == ApplyAll(old(registered), DialogCalls(uniqueName, filters, rand, bus))
      ensures old(registered) == Registered(old(calls)) ==> registered == Registered(calls)
      ensures registered <= old(registered)
      ensures res.Error? ==> GetError() == Some(res.msg)
      ensures !res.Error? ==>
        if Rebinds(uniqueName, rand, bus) && bus.rebindAdd.Some? then errPtr == BusMessage && dbusErr == bus.rebindAdd
        else errPtr == old(errPtr) && dbusErr == old(dbusErr)
    {
      var handle, token := PredictHandle(uniqueName, rand);
      var sub := new SubscriptionHandler(this);
      res, outPath := Run(sub, handle, token, filters, bus);
      CallsFromApplied(old(registered), uniqueName, handle, token, filters, bus);
      NetLeavesNoRule(old(registered), uniqueName, handle, bus);
      RegisteredConcat(old(calls), DialogCalls(uniqueName, filters, rand, bus));
    }

    /** `NFD_OpenDialogN` from the subscription on, for the predicted
        `handle` and its `token`. */
    method Run(sub: SubscriptionHandler, handle: string, token: string, filters: seq<FilterItem>, bus: Bus)
      returns (res: Status, outPath: Option<array<char>>)
      requires sub.backend == this && sub.Valid() && sub.subCmd == None && WalkableFilters(filters)
      requires !Dialog(bus).Blocked?
      modifies this, sub
      ensures Valid()
      ensures outPath.Some? ==> fresh(outPath.value) && outPath.value.Length > 0
      ensures Dialog(bus) == Returned(res, if outPath.Some? then Some(outPath.value[..outPath.value.Length - 1]) else None)
      ensures outPath.Some? ==> outPath.value[outPath.value.Length - 1] == '\0'
      ensures calls == old(calls) + CallsFrom(uniqueName, handle, token, filters, bus)
      ensures registered == Released(Requested(old(registered), uniqueName, handle, bus), uniqueName, handle, ReplyPath(bus), bus.rebindAdd)
      ensures res.Error? ==> GetError() == Some(res.msg)
      ensures !res.Error? ==>
        if ReplyPath(bus).Ok? && ReplyPath(bus).value != handle && bus.rebindAdd.Some? then errPtr == BusMessage && dbusErr == bus.rebindAdd
        else errPtr == old(errPtr) && dbusErr == old(dbusErr)
    {
      var reply := Request(sub, handle, token, filters, bus);
      res, outPath := Conclude(sub, handle, reply, bus);
    }

    /** After the reply check: a failure ends the call once the destructor
        has released the subscription; a reply naming an object goes on. */
    method Conclude(sub: SubscriptionHandler, handle: string, reply: Result<string, string>, bus: Bus)
      returns (res: Status, outPath: Option<array<char>>)
      requires sub.backend == this && sub.Valid() && sub.subCmd == Some(Rule(handle, uniqueName))
      requires reply == ReplyPath(bus) && !Dialog(bus).Blocked?
      requires reply.Err? ==> GetError() == Some(reply.error)
      modifies this, sub
      ensures Valid()
      ensures outPath.Some? ==> fresh(outPath.value) && outPath.value.Length > 0
      ensures Dialog(bus) == Returned(res, if outPath.Some? then Some(outPath.value[..outPath.value.Length - 1]) else None)
      ensures outPath.Some? ==> outPath.value[outPath.value.Length - 1] == '\0'
      ensures calls == old(calls) + ReleaseCalls(uniqueName, handle, reply, bus.rebindAdd)
      ensures registered == Released(old(registered), uniqueName, handle, reply, bus.rebindAdd)
      ensures res.Error? ==> GetError() == Some(res.msg)
      ensures !res.Error? ==>
        if reply.Ok? && reply.value != handle && bus.rebindAdd.Some? then errPtr == BusMessage && dbusErr == bus.rebindAdd
        else errPtr == old(errPtr) && dbusErr == old(dbusErr)
    {
      if reply.Err? {
        res, outPath := Error(reply.error), None;
        sub.Release();
      } else {
        res, outPath := Resume(sub, handle, reply.value, bus);
      }
    }

    /** After a reply naming `path`: moves the subscription there when it
        is not the predicted handle, waits, and releases the subscription. */
    method Resume(sub: SubscriptionHandler, handle: string, path: string, bus: Bus)
      returns (res: Status, outPath: Option<array<char>>)
      requires sub.backend == this && sub.Valid() && sub.subCmd == Some(Rule(handle, uniqueName))
      requires ReplyPath(bus) == Ok(path) && !Finish(Wait(bus.queue, bus.wakes)).Blocked?
      modifies this, sub
      ensures Valid()
      ensures outPath.Some? ==> fresh(outPath.value) && outPath.value.Length > 0
      ensures Finish(Wait(bus.queue, bus.wakes)) ==
        Returned(res, if outPath.Some? then Some(outPath.value[..outPath.value.Length - 1]) else None)
      ensures outPath.Some? ==> outPath.value[outPath.value.Length - 1] == '\0'
      ensures calls == old(calls) + ReleaseCalls(uniqueName, handle, ReplyPath(bus), bus.rebindAdd)
      ensures registered == Released(old(registered), uniqueName, handle, Ok(path), bus.rebindAdd)
      ensures res.Error? ==> GetError() == Some(res.msg)
      ensures !res.Error? ==>
        if path != handle && bus.rebindAdd.Some? then errPtr == BusMessage && dbusErr == bus.rebindAdd
        else errPtr == old(errPtr) && dbusErr == old(dbusErr)
    {
      Rebind(sub, handle, path, bus.rebindAdd);
      res, outPath := AwaitReleased(sub, bus);
    }

    /** The wait, then the destructor of the subscription at the end of the
        call's scope. */
    method AwaitReleased(sub: SubscriptionHandler, bus: Bus) returns (res: Status, outPath: Option<array<char>>)
      requires sub.backend == this && sub.Valid() && sub.subCmd.Some? && !Finish(Wait(bus.queue, bus.wakes)).Blocked?
      modifies this, sub
      ensures Valid()
      ensures outPath.Some? ==> fresh(outPath.value) && outPath.value.Length > 0
      ensures Finish(Wait(bus.queue, bus.wakes)) ==
        Returned(res, if outPath.Some? then Some(outPath.value[..outPath.value.Length - 1]) else None)
      ensures outPath.Some? ==> outPath.value[outPath.value.Length - 1] == '\0'
      ensures calls == old(calls) + [RemoveMatch(old(sub.subCmd).value)]
      ensures registered == old(registered) - multiset{old(sub.subCmd).value}
      ensures res.Error? ==> GetError() == Some(res.msg)
      ensures !res.Error? ==> errPtr == old(errPtr) && dbusErr == old(dbusErr)
    {
      res, outPath := Await(bus);
      sub.Release();
    }

    /** The move of the subscription to the object the reply names, when it
        is not the predicted handle; a failure to register the new rule is
        saved as the bus error and otherwise ignored. */
    method Rebind(sub: SubscriptionHandler, handle: string, path: string, rebindAdd: Option<string>)
      requires sub.backend == this && sub.Valid() && sub.subCmd == Some(Rule(handle, uniqueName))
      modifies this, sub
      ensures sub.Valid() && sub.subCmd == Some(Rule(if path != handle then path else handle, uniqueName))
      ensures calls == old(calls) + Rebound(uniqueName, handle, path, rebindAdd)
      ensures registered == if path == handle then old(registered)
        else Apply(old(registered) - multiset{Rule(handle, uniqueName)}, AddMatch(Rule(path, uniqueName), rebindAdd.None?))
      ensures if path != handle && rebindAdd.Some? then errPtr == BusMessage && dbusErr == rebindAdd
        else errPtr == old(errPtr) && dbusErr == old(dbusErr)
    {
      if path != handle {
        var _ := sub.Subscribe(path, rebindAdd);
      }
    }

    /** From the subscription to the check of the reply: the handler holds
        the rule for `handle` whatever happens; unless registering it fails,
        `OpenFile` is called and its reply checked for an object path, which
        is the result. */
    method Request(sub: SubscriptionHandler, handle: string, token: string, filters: seq<FilterItem>, bus: Bus)
      returns (r: Result<string, string>)
      requires sub.backend == this && sub.Valid() && sub.subCmd == None && WalkableFilters(filters)
      modifies this, sub
      ensures sub.Valid() && sub.subCmd == Some(Rule(handle, uniqueName))
      ensures r == ReplyPath(bus)
      ensures calls == old(calls) + RequestCalls(Rule(handle, uniqueName), token, filters, bus)
      ensures registered == Requested(old(registered), uniqueName, handle, bus)
      ensures r.Err? ==> GetError() == Some(r.error)
      ensures r.Ok? ==> errPtr == old(errPtr) && dbusErr == old(dbusErr)
    {
      var st := sub.Subscribe(handle, bus.firstAdd);
      if st != Okay {
        return Err(st.msg);
      }
      r := SendQuery(sub, token, filters, bus);
    }

    /** The `OpenFile` call and the check of its reply. */
    method SendQuery(sub: SubscriptionHandler, token: string, filters: seq<FilterItem>, bus: Bus)
      returns (r: Result<string, string>)
      requires sub.backend == this && sub.Valid() && WalkableFilters(filters) && bus.firstAdd.None?
      modifies this
      ensures sub.Valid()
      ensures r == ReplyPath(bus)
      ensures calls == old(calls) + [OpenFile(QueryParams(token, false, filters))] && registered == old(registered)
      ensures r.Err? ==> GetError() == Some(r.error)
      ensures r.Ok? ==> errPtr == old(errPtr) && dbusErr == old(dbusErr)
    {
      var query := AppendOpenFileQueryParams(false, token, filters);
      Record(OpenFile(query));
      if bus.reply.Err? {
        MoveBusError(bus.reply.error);
        return Err(bus.reply.error);
      }
      var reply := bus.reply.value;
      if |reply| == 0 {
        SetError(MSG_REPLY_MISSING);
        return Err(MSG_REPLY_MISSING);
      }
      if !reply[0].ObjPath? {
        SetError(MSG_REPLY_NOT_PATH);
        return Err(MSG_REPLY_NOT_PATH);
      }
      r := Ok(CString(reply[0].path));
    }

    /** The wait and the conversion of the URI it gives into a path. */
    method Await(bus: Bus) returns (res: Status, outPath: Option<array<char>>)
      requires Valid() && !Finish(Wait(bus.queue, bus.wakes)).Blocked?
      modifies this
      ensures Valid() && calls == old(calls) && registered == old(registered)
      ensures outPath.Some? ==> fresh(outPath.value) && outPath.value.Length > 0
      ensures Finish(Wait(bus.queue, bus.wakes)) ==
        Returned(res, if outPath.Some? then Some(outPath.value[..outPath.value.Length - 1]) else None)
      ensures outPath.Some? ==> outPath.value[outPath.value.Length - 1] == '\0'
      ensures res.Error? ==> GetError() == Some(res.msg)
      ensures !res.Error? ==> errPtr == old(errPtr) && dbusErr == old(dbusErr)
    {
      var outcome := WaitForResponse(bus.queue, bus.wakes);
      match outcome {
        case Waiting =>
          assert false;
        case Stopped(st) =>
          if st.Error? {
            SetError(st.msg);
          }
          res, outPath := st, None;
        case NoReply =>
          SetError(MSG_NO_REPLY);
          res, outPath := Error(MSG_NO_REPLY), None;
        case Got(uri) =>
          var copied := AllocAndCopyFilePath(CString(uri));
          if copied.Err? {
            SetError(copied.error);
            res, outPath := Error(copied.error), None;
          } else {
            res, outPath := Okay, Some(copied.value);
          }
      }
    }
  }

  /** `MakeUniqueObjectPath`, read back as the handle path and the token
      (the C string at `handle_token_ptr`). */
  method PredictHandle(uniqueName: string, rand: seq<RandomOutcome>) returns (handle: string, token: string)
    requires ValidTrace(rand, TOKEN_BYTES)
    ensures handle == HandlePath(uniqueName, Token(rand)) && token == Token(rand)
  {
    var path, tokenAt, len := MakeUniqueObjectPath(uniqueName, rand);
    handle := path[..len];
    token := path[tokenAt..len];
  }

  /** The object path of the reply to `OpenFile`, or the message of the
      failure that ends the call before it: the registration of the rule,
      the call itself, a reply without arguments or one whose first argument
      is not an object path. */
  function ReplyPath(bus: Bus): Result<string, string>
  {
    if bus.firstAdd.Some? then Err(bus.firstAdd.value)
    else if bus.reply.Err? then Err(bus.reply.error)
    else if |bus.reply.value| == 0 then Err(MSG_REPLY_MISSING)
    else if !bus.reply.value[0].ObjPath? then Err(MSG_REPLY_NOT_PATH)
    else Ok(CString(bus.reply.value[0].path))
  }

  /** Whether the reply names a Request object other than the predicted
      handle, so that the subscription is moved to it. */
  predicate Rebinds(uniqueName: string, rand: seq<RandomOutcome>, bus: Bus)
  {
    ReplyPath(bus).Ok? && ReplyPath(bus).value != HandlePath(uniqueName, Token(rand))
  }

  /** How `NFD_OpenDialogN` ends: with a status and, on success, the path;
      or not at all, while it is still blocked in the wait. */
  datatype DialogResult = Returned(st: Status, path: Option<string>) | Blocked

  /** How the wait's outcome ends the call: a cancel or error status is
      returned as it is, a closed connection is an error, and the URI is
      turned into a path. */
  function Finish(o: Outcome): DialogResult
  {
    match o
    case Waiting => Blocked
    case Stopped(st) => Returned(st, None)
    case NoReply => Returned(Error(MSG_NO_REPLY), None)
    case Got(uri) =>
      match FilePath(CString(uri))
      case Err(msg) => Returned(Error(msg), None)
      case Ok(p) => Returned(Okay, Some(p))
  }

  /** The result of `NFD_OpenDialogN`. */
  function Dialog(bus: Bus): DialogResult
  {
    match ReplyPath(bus)
    case Err(msg) => Returned(Error(msg), None)
    case Ok(_) => Finish(Wait(bus.queue, bus.wakes))
  }

  /** What is asked of the bus up to the reply: the rule `r1`, and unless
      that fails, the `OpenFile` call. */
  function RequestCalls(r1: string, token: string, filters: seq<FilterItem>, bus: Bus): seq<BusCall>
    requires WalkableFilters(filters)
  {
    if bus.firstAdd.Some? then [AddMatch(r1, false)]
    else [AddMatch(r1, true), OpenFile(QueryParams(token, false, filters))]
  }

  /** What is asked of the bus after the reply `reply`, while the rule
      `r1` for `handle` is held: when the reply names another object, the
      move of the rule to it; and last the removal of the rule held then. */
  function ReleaseCalls(uniqueName: string, handle: string, reply: Result<string, string>, rebindAdd: Option<string>): seq<BusCall>
  {
    var r1 := Rule(handle, uniqueName);
    if reply.Ok? && reply.value != handle then
      var r2 := Rule(reply.value, uniqueName);
      [RemoveMatch(r1), AddMatch(r2, rebindAdd.None?), RemoveMatch(r2)]
    else [RemoveMatch(r1)]
  }

  /** What the move of the subscription from `handle` to the reply's
      `path` asks of the bus: nothing when they are the same object. */
  function Rebound(uniqueName: string, handle: string, path: string, rebindAdd: Option<string>): seq<BusCall>
  {
    if path != handle then [RemoveMatch(Rule(handle, uniqueName)), AddMatch(Rule(path, uniqueName), rebindAdd.None?)] else []
  }

  /** What is registered after the requests up to the reply: the rule for
      `handle` once more, unless its registration failed. */
  function Requested(registered: multiset<string>, uniqueName: string, handle: string, bus: Bus): multiset<string>
  {
    if bus.firstAdd.Some? then registered else registered + multiset{Rule(handle, uniqueName)}
  }

  /** What is registered after the requests that follow the reply: the
      rule for `handle` removed, and when the subscription moved, the rule
      for the reply's path added (if that succeeded) and removed. */
  function Released(registered: multiset<string>, uniqueName: string, handle: string,
                    reply: Result<string, string>, rebindAdd: Option<string>): multiset<string>
  {
    if reply.Ok? && reply.value != handle then
      Apply(registered - multiset{Rule(handle, uniqueName)}, AddMatch(Rule(reply.value, uniqueName), rebindAdd.None?))
        - multiset{Rule(reply.value, uniqueName)}
    else registered - multiset{Rule(handle, uniqueName)}
  }

  /** What `NFD_OpenDialogN` asks of the bus for the handle `handle`. */
  function CallsFrom(uniqueName: string, handle: string, token: string, filters: seq<FilterItem>, bus: Bus): seq<BusCall>
    requires WalkableFilters(filters)
  {
    RequestCalls(Rule(handle, uniqueName), token, filters, bus) +
    ReleaseCalls(uniqueName, handle, ReplyPath(bus), bus.rebindAdd)
  }

  /** What `NFD_OpenDialogN` asks of the bus. */
  function DialogCalls(uniqueName: string, filters: seq<FilterItem>, rand: seq<RandomOutcome>, bus: Bus): seq<BusCall>
    requires ValidTrace(rand, TOKEN_BYTES) && WalkableFilters(filters)
  {
    CallsFrom(uniqueName, HandlePath(uniqueName, Token(rand)), Token(rand), filters, bus)
  }

  /** `DBusSignalSubscriptionHandler`: the rule it holds (`sub_cmd`), if
      any. Everything registered beyond what was registered when it was
      made is the rule it holds. */
  class SubscriptionHandler {
    const backend: Backend
    var subCmd: Option<string>
    ghost const base: multiset<string>

    function Held(): multiset<string>
      reads this
    {
      if subCmd.Some? then multiset{subCmd.value} else multiset{}
    }

    ghost predicate Valid()
      reads this, backend
    {
      backend.Valid() && backend.registered <= base + Held()
    }

    constructor(backend: Backend)
      requires backend.Valid()
      ensures this.backend == backend && subCmd == None && base == backend.registered
      ensures Valid()
    {
      this.backend := backend;
      subCmd := None;
      base := backend.registered;
    }

    /** `Subscribe`: drops the rule held, if any, then holds and registers
        the rule for `handlePath`. The rule is held even when registering it
        fails; the failure is then the saved bus error. */
    method Subscribe(handlePath: string, addError: Option<string>) returns (st: Status)
      requires Valid()
      modifies this, backend
      ensures Valid()
      ensures subCmd == Some(Rule(handlePath, backend.uniqueName))
      ensures backend.calls == old(backend.calls)
        + (if old(subCmd).Some? then [RemoveMatch(old(subCmd).value)] else [])
        + [AddMatch(Rule(handlePath, backend.uniqueName), addError.None?)]
      ensures backend.registered ==
        Apply(Dropped(old(backend.registered), old(subCmd)), AddMatch(Rule(handlePath, backend.uniqueName), addError.None?))
      ensures addError.None? ==>
        st == Okay && backend.errPtr == old(backend.errPtr) && backend.dbusErr == old(backend.dbusErr)
      ensures addError.Some? ==>
        st == Error(addError.value) && backend.errPtr == BusMessage && backend.dbusErr == addError
    {
      Release();
      var cmd := MakeResponseSubscriptionPath(handlePath, backend.uniqueName);
      st := Register(cmd[..cmd.Length - 1], addError);
    }

    /** Holds `rule` and asks the bus to register it. */
    method Register(rule: string, addError: Option<string>) returns (st: Status)
      requires Valid() && subCmd == None
      modifies this, backend
      ensures Valid() && subCmd == Some(rule)
      ensures backend.calls == old(backend.calls) + [AddMatch(rule, addError.None?)]
      ensures backend.registered == Apply(old(backend.registered), AddMatch(rule, addError.None?))
      ensures addError.None? ==>
        st == Okay && backend.errPtr == old(backend.errPtr) && backend.dbusErr == old(backend.dbusErr)
      ensures addError.Some? ==>
        st == Error(addError.value) && backend.errPtr == BusMessage && backend.dbusErr == addError
    {
      subCmd := Some(rule);
      AddHeld(backend.registered, base, rule, addError.None?);
      backend.Record(AddMatch(rule, addError.None?));
      if addError.Some? {
        backend.MoveBusError(addError.value);
        return Error(addError.value);
      }
      st := Okay;
    }

    /** `Unsubscribe`: removes the rule held and holds none; a failure of the
        removal is dropped. The C frees the rule unconditionally, so a rule
        must be held. */
    method Unsubscribe()
      requires Valid() && subCmd.Some?
      modifies this, backend
      ensures Valid() && subCmd == None
      ensures backend.calls == old(backend.calls) + [RemoveMatch(old(subCmd).value)]
      ensures backend.registered == old(backend.registered) - multiset{old(subCmd).value}
      ensures backend.errPtr == old(backend.errPtr) && backend.dbusErr == old(backend.dbusErr)
    {
      DropHeld(backend.registered, base, subCmd.value);
      backend.Record(RemoveMatch(subCmd.value));
      subCmd := None;
    }

    /** The destructor: unsubscribes when a rule is held, and does nothing
        otherwise, so that releasing twice is the same as releasing once.
        Afterwards nothing is registered that was not registered when the
        handler was made. */
    method Release()
      requires Valid()
      modifies this, backend
      ensures Valid() && subCmd == None
      ensures backend.registered <= base
      ensures backend.calls == old(backend.calls) + (if old(subCmd).Some? then [RemoveMatch(old(subCmd).value)] else [])
      ensures backend.registered == Dropped(old(backend.registered), old(subCmd))
      ensures backend.errPtr == old(backend.errPtr) && backend.dbusErr == old(backend.dbusErr)
    {
      if subCmd.Some? {
        Unsubscribe();
      }
    }
  }

  lemma {:induction false} ApplyAllConcat(m: multiset<string>, a: seq<BusCall>, b: seq<BusCall>)
    ensures ApplyAll(m, a + b) == ApplyAll(ApplyAll(m, a), b)
    decreases |a|
  {
    if a == [] {
      assert a + b == b;
    } else {
      assert (a + b)[0] == a[0] && (a + b)[1..] == a[1..] + b;
      ApplyAllConcat(Apply(m, a[0]), a[1..], b);
    }
  }

  /** Up to the reply, the rule for the handle is registered once more when
      its registration succeeds. */
  lemma RequestRegisters(m: multiset<string>, r1: string, token: string, filters: seq<FilterItem>, bus: Bus)
    requires WalkableFilters(filters)
    ensures ApplyAll(m, RequestCalls(r1, token, filters, bus)) ==
      if bus.firstAdd.Some? then m else m + multiset{r1}
  {
    if bus.firstAdd.Some? {
      assert [AddMatch(r1, false)][1..] == [];
    } else {
      var q := OpenFile(QueryParams(token, false, filters));
      assert [AddMatch(r1, true), q][1..] == [q] && [q][1..] == [];
      assert ApplyAll(m + multiset{r1}, [q]) == ApplyAll(m + multiset{r1}, []);
    }
  }

  /** After the reply, the rule for the handle is removed, and so is the
      one it is moved to. */
  lemma ReleaseUnregisters(m: multiset<string>, uniqueName: string, handle: string,
                           reply: Result<string, string>, rebindAdd: Option<string>)
    ensures ApplyAll(m, ReleaseCalls(uniqueName, handle, reply, rebindAdd)) ==
      if reply.Ok? && reply.value != handle then
        Apply(m - multiset{Rule(handle, uniqueName)}, AddMatch(Rule(reply.value, uniqueName), rebindAdd.None?))
          - multiset{Rule(reply.value, uniqueName)}
      else m - multiset{Rule(handle, uniqueName)}
  {
    var r1 := Rule(handle, uniqueName);
    if reply.Ok? && reply.value != handle {
      var r2 := Rule(reply.value, uniqueName);
      var more := [RemoveMatch(r1), AddMatch(r2, rebindAdd.None?), RemoveMatch(r2)];
      assert more[1..] == [AddMatch(r2, rebindAdd.None?), RemoveMatch(r2)];
      assert more[1..][1..] == [RemoveMatch(r2)] && more[1..][1..][1..] == [];
      var m1 := m - multiset{r1};
      var m2 := Apply(m1, AddMatch(r2, rebindAdd.None?));
      assert ApplyAll(m, more) == ApplyAll(m1, more[1..]);
      assert ApplyAll(m1, more[1..]) == ApplyAll(m2, [RemoveMatch(r2)]);
      assert ApplyAll(m2, [RemoveMatch(r2)]) == ApplyAll(m2 - multiset{r2}, []);
    } else {
      assert [RemoveMatch(r1)][1..] == [];
      assert ApplyAll(m, [RemoveMatch(r1)]) == ApplyAll(m - multiset{r1}, []);
    }
  }

  /** The requests of `NFD_OpenDialogN`, applied one by one, add the rule
      through `Requested` and take it away through `Released`. */
  lemma CallsFromApplied(m: multiset<string>, uniqueName: string, handle: string, token: string,
                         filters: seq<FilterItem>, bus: Bus)
    requires WalkableFilters(filters)
    ensures ApplyAll(m, CallsFrom(uniqueName, handle, token, filters, bus)) ==
      Released(Requested(m, uniqueName, handle, bus), uniqueName, handle, ReplyPath(bus), bus.rebindAdd)
  {
    var r1 := Rule(handle, uniqueName);
    var requested := RequestCalls(r1, token, filters, bus);
    var released := ReleaseCalls(uniqueName, handle, ReplyPath(bus), bus.rebindAdd);
    ApplyAllConcat(m, requested, released);
    RequestRegisters(m, r1, token, filters, bus);
    ReleaseUnregisters(ApplyAll(m, requested), uniqueName, handle, ReplyPath(bus), bus.rebindAdd);
  }

  /** The net effect of those requests takes away at least what it adds,
      and exactly that when every registration succeeds. */
  lemma NetLeavesNoRule(m: multiset<string>, uniqueName: string, handle: string, bus: Bus)
    ensures Released(Requested(m, uniqueName, handle, bus), uniqueName, handle, ReplyPath(bus), bus.rebindAdd) <= m
    ensures bus.firstAdd.None? && bus.rebindAdd.None? ==>
      Released(Requested(m, uniqueName, handle, bus), uniqueName, handle, ReplyPath(bus), bus.rebindAdd) == m
  {
    var r1 := Rule(handle, uniqueName);
    var reply := ReplyPath(bus);
    if bus.firstAdd.Some? {
      AddThenRemove(m, r1, false);
    } else {
      AddThenRemove(m, r1, true);
      if reply.Ok? && reply.value != handle {
        AddThenRemove(m, Rule(reply.value, uniqueName), bus.rebindAdd.None?);
      }
    }
  }

  /** Adding a rule, whether or not that succeeds, and then removing it
      leaves at most what was there, and exactly that when it succeeded. */
  lemma AddThenRemove(m: multiset<string>, r: string, ok: bool)
    ensures Apply(m, AddMatch(r, ok)) - multiset{r} <= m
    ensures ok ==> Apply(m, AddMatch(r, ok)) - multiset{r} == m
  {
  }

  /** Whatever it ends with, `NFD_OpenDialogN` leaves no rule registered
      that was not registered before it; when every registration succeeds,
      it leaves exactly what was registered before. */
  lemma DialogLeavesNoRule(calls: seq<BusCall>, uniqueName: string, handle: string, token: string,
                           filters: seq<FilterItem>, bus: Bus)
    requires WalkableFilters(filters)
    ensures Registered(calls + CallsFrom(uniqueName, handle, token, filters, bus)) <= Registered(calls)
    ensures bus.firstAdd.None? && bus.rebindAdd.None? ==>
      Registered(calls + CallsFrom(uniqueName, handle, token, filters, bus)) == Registered(calls)
  {
    RegisteredConcat(calls, CallsFrom(uniqueName, handle, token, filters, bus));
    CallsFromApplied(Registered(calls), uniqueName, handle, token, filters, bus);
    NetLeavesNoRule(Registered(calls), uniqueName, handle, bus);
  }

  /** The rule whose registration failed is still removed by the
      destructor: a registration of the same rule made earlier on the
      connection is taken away. */
  lemma FailedAddRemovesEarlier(calls: seq<BusCall>, uniqueName: string, handle: string, token: string,
                                filters: seq<FilterItem>, bus: Bus)
    requires WalkableFilters(filters) && bus.firstAdd.Some?
    ensures Registered(calls + CallsFrom(uniqueName, handle, token, filters, bus)) ==
      Registered(calls) - multiset{Rule(handle, uniqueName)}
  {
    RegisteredConcat(calls, CallsFrom(uniqueName, handle, token, filters, bus));
    CallsFromApplied(Registered(calls), uniqueName, handle, token, filters, bus);
    assert ReplyPath(bus).Err?;
  }

  /** A portal that answers with the request object `path` and then a
      `Response` carrying the URI `file:///tmp/a.txt` makes the call
      return that file's path. */
  lemma PickedFileReturned(path: string)
    ensures Dialog(Bus(None, Ok([ObjPath(path)]), None, [UriResponse(path, "file:///tmp/a.txt")], []))
      == Returned(Okay, Some("/tmp/a.txt"))
  {
    var uri := "file:///tmp/a.txt";
    var u := UriResponse(path, uri);
    UriResponseEndsWait(path, uri, []);
    assert Finish(Got(uri)) == Returned(Okay, Some("/tmp/a.txt")) by {
      assert '\0' !in uri;
      FilePathExamples();
    }
  }

  /** A `Response` with code `1` makes the call return a cancel, without
      an error and without a path. */
  lemma CancelReturned(path: string, results: Value)
    ensures Dialog(Bus(None, Ok([ObjPath(path)]), None,
      [Message(Signal, REQUEST_IFACE, RESPONSE_MEMBER, path, [U32(1), results])], []))
      == Returned(Cancel, None)
  {
  }
}

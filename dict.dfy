/** The dictionary reader (`ReadDict` / `ReadDictImpl`): walks an `a{sv}`
    argument entry by entry and hands each entry's unwrapped value to the
    first handler registered under its key. Handlers carry the caller's
    state (what the C lambdas capture by reference) and report a status;
    only an error stops the walk. */
module Dict {
  import opened DBusValues

  /** A key and its callback; the callback sees the state and the value
      inside the entry's variant. */
  datatype Handler<!S> = Handler(key: string, run: (S, Value) -> (Status, S))

  const MSG_NOT_ARRAY: string := "D-Bus response signal argument is not an array."
  const MSG_NO_STRING_KEY: string := "D-Bus response signal dict entry does not start with a string."
  const MSG_MISSING_VALUE: string := "D-Bus response signal dict entry is missing one or more arguments."
  const MSG_NOT_VARIANT: string := "D-Bus response signal dict entry value is not a variant."

  /** `ReadDictImpl`: the first handler whose key equals `key` runs; with
      no such handler nothing happens and the result is OK. */
  function Dispatch<S>(key: string, value: Value, handlers: seq<Handler<S>>, state: S): (Status, S)
  {
    if handlers == [] then (Okay, state)
    else if handlers[0].key == key then handlers[0].run(state, value)
    else Dispatch(key, value, handlers[1..], state)
  }

  /** What one dict entry does: its structural checks, then the dispatch. */
  function ReadEntry<S>(fields: seq<Value>, handlers: seq<Handler<S>>, state: S): (Status, S)
  {
    if |fields| == 0 || !fields[0].Str? then (Error(MSG_NO_STRING_KEY), state)
    else if |fields| < 2 then (Error(MSG_MISSING_VALUE), state)
    else if !fields[1].Variant? then (Error(MSG_NOT_VARIANT), state)
    else Dispatch(fields[0].s, fields[1].inner, handlers, state)
  }

  /** The walk over the array's elements from the first on: it ends without
      error at the end or at the first element that is not a dict entry,
      and with the entry's error at the first entry that fails. The state
      is what the handlers that ran left behind. */
  function ReadEntries<S>(elems: seq<Value>, handlers: seq<Handler<S>>, state: S): (Status, S)
  {
    if elems == [] || !elems[0].DictEntry? then (Okay, state)
    else
      var (st, state') := ReadEntry(elems[0].fields, handlers, state);
      if st.Error? then (st, state') else ReadEntries(elems[1..], handlers, state')
  }

  /** `ReadDict` on one argument. */
  function DecodeDict<S>(arg: Value, handlers: seq<Handler<S>>, state: S): (Status, S)
  {
    if !arg.Array? then (Error(MSG_NOT_ARRAY), state) else ReadEntries(arg.elems, handlers, state)
  }

  /** `ReadDict`'s loop: the state and status it ends with are those of
      the walk over the whole array. */
  method ReadDict<S>(arg: Value, handlers: seq<Handler<S>>, state: S) returns (st: Status, state': S)
    ensures (st, state') == DecodeDict(arg, handlers, state)
  {
    if !arg.Array? {
      return Error(MSG_NOT_ARRAY), state;
    }
    var elems := arg.elems;
    var i := 0;
    state' := state;
    while i < |elems| && elems[i].DictEntry?
      invariant 0 <= i <= |elems|
      invariant ReadEntries(elems, handlers, state) == ReadEntries(elems[i..], handlers, state')
    {
      var de := elems[i].fields;
      if |de| == 0 || !de[0].Str? {
        return Error(MSG_NO_STRING_KEY), state';
      }
      var key := de[0].s;
      if |de| < 2 {
        return Error(MSG_MISSING_VALUE), state';
      }
      if !de[1].Variant? {
        return Error(MSG_NOT_VARIANT), state';
      }
      var r := Dispatch(key, de[1].inner, handlers, state');
      if r.0.Error? {
        return r.0, r.1;
      }
      assert elems[i..][1..] == elems[i + 1..];
      state' := r.1;
      i := i + 1;
    }
    st := Okay;
  }

  /** An argument that is not an array is an error and runs no handler. */
  lemma NotArrayIsError<S>(arg: Value, handlers: seq<Handler<S>>, state: S)
    requires !arg.Array?
    ensures DecodeDict(arg, handlers, state) == (Error(MSG_NOT_ARRAY), state)
  {
  }

  /** The value goes to the first handler with a matching key, whatever the
      later handlers are. */
  lemma {:induction false} FirstMatchRuns<S>(key: string, value: Value, handlers: seq<Handler<S>>, state: S, j: nat)
    requires j < |handlers| && handlers[j].key == key
    requires forall i :: 0 <= i < j ==> handlers[i].key != key
    ensures Dispatch(key, value, handlers, state) == handlers[j].run(state, value)
  {
    if j > 0 {
      assert forall i :: 0 <= i < j - 1 ==> handlers[1..][i] == handlers[i + 1];
      FirstMatchRuns(key, value, handlers[1..], state, j - 1);
    }
  }

  /** A key no handler is registered for runs nothing and is OK. */
  lemma {:induction false} UnknownKeySkipped<S>(key: string, value: Value, handlers: seq<Handler<S>>, state: S)
    requires forall i :: 0 <= i < |handlers| ==> handlers[i].key != key
    ensures Dispatch(key, value, handlers, state) == (Okay, state)
  {
    if handlers != [] {
      assert forall i :: 0 <= i < |handlers| - 1 ==> handlers[1..][i] == handlers[i + 1];
      UnknownKeySkipped(key, value, handlers[1..], state);
    }
  }

  /** A well-formed entry with an unknown key leaves the walk as if the
      entry were not there. */
  lemma {:induction false} UnknownEntrySkipped<S>(key: string, value: Value, rest: seq<Value>, handlers: seq<Handler<S>>, state: S)
    requires forall i :: 0 <= i < |handlers| ==> handlers[i].key != key
    ensures ReadEntries([DictEntry([Str(key), Variant(Sig(value), value)])] + rest, handlers, state)
      == ReadEntries(rest, handlers, state)
  {
    var e := DictEntry([Str(key), Variant(Sig(value), value)]);
    UnknownKeySkipped(key, value, handlers, state);
    assert ReadEntry(e.fields, handlers, state) == (Okay, state);
    assert ([e] + rest)[0] == e && ([e] + rest)[1..] == rest;
  }

  /** An entry that fails its checks, or whose handler reports an error,
      ends the walk on that error: nothing after it is looked at. */
  lemma ErrorAborts<S>(e: Value, rest: seq<Value>, handlers: seq<Handler<S>>, state: S)
    requires e.DictEntry? && ReadEntry(e.fields, handlers, state).0.Error?
    ensures ReadEntries([e] + rest, handlers, state) == ReadEntry(e.fields, handlers, state)
  {
    assert ([e] + rest)[0] == e;
  }

  /** A dict entry without a string key, without a second field, or whose
      value is not a variant ends the walk with the matching error, and no
      handler runs. */
  lemma MalformedEntryRejected<S>(fields: seq<Value>, rest: seq<Value>, handlers: seq<Handler<S>>, state: S)
    ensures |fields| == 0 || !fields[0].Str? ==>
      ReadEntries([DictEntry(fields)] + rest, handlers, state) == (Error(MSG_NO_STRING_KEY), state)
    ensures |fields| == 1 && fields[0].Str? ==>
      ReadEntries([DictEntry(fields)] + rest, handlers, state) == (Error(MSG_MISSING_VALUE), state)
    ensures |fields| >= 2 && fields[0].Str? && !fields[1].Variant? ==>
      ReadEntries([DictEntry(fields)] + rest, handlers, state) == (Error(MSG_NOT_VARIANT), state)
  {
    assert ([DictEntry(fields)] + rest)[0] == DictEntry(fields);
  }

  /** The walk stops without error at the first element that is not a
      dict entry: the status and state are those the entries before it
      leave, and what comes after it does not matter. */
  lemma {:induction false} StopsAtNonEntry<S>(entries: seq<Value>, x: Value, rest: seq<Value>, handlers: seq<Handler<S>>, state: S)
    requires !x.DictEntry?
    ensures ReadEntries(entries + [x] + rest, handlers, state) == ReadEntries(entries, handlers, state)
    ensures ReadEntries(entries + [x] + rest, handlers, state) == ReadEntries(entries + [x], handlers, state)
  {
    if entries == [] {
      assert ([x] + rest)[0] == x && [x][0] == x;
      assert entries + [x] + rest == [x] + rest && entries + [x] == [x];
    } else if entries[0].DictEntry? {
      var r := ReadEntry(entries[0].fields, handlers, state);
      assert (entries + [x] + rest)[0] == entries[0] && (entries + [x])[0] == entries[0];
      if !r.0.Error? {
        assert (entries + [x] + rest)[1..] == entries[1..] + [x] + rest;
        assert (entries + [x])[1..] == entries[1..] + [x];
        StopsAtNonEntry(entries[1..], x, rest, handlers, r.1);
      }
    } else {
      assert (entries + [x] + rest)[0] == entries[0] && (entries + [x])[0] == entries[0];
    }
  }
}

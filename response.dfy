/** The reader of the `Response` signal (`ReadResponseParamsSingle`): a
    `uint32` result code, then on code `0` the results dictionary, of which
    only `uris` is read. `file` is the C out-parameter: `None` while it still
    holds what the caller put there, `Some(u)` once the `uris` handler has
    stored the URI `u` into it. */
module Response {
  import opened Wrappers
  import opened DBusValues
  import opened Dict

  const MSG_MISSING_ARGS: string := "D-Bus response signal is missing one or more arguments."
  const MSG_NOT_U32: string := "D-Bus response signal argument is not a uint32."
  const MSG_ABRUPT: string := "D-Bus file dialog interaction was ended abruptly."
  const MSG_URIS_NOT_ARRAY: string := "D-Bus response signal URI iter is not an array."
  const MSG_URI_NOT_STRING: string := "D-Bus response signal URI sub iter is not an string."

  /** The `uris` callback: the value must be an array whose first element
      is a string, which becomes the file. */
  function UrisRun(file: Option<string>, uris: Value): (Status, Option<string>)
  {
    if !uris.Array? then (Error(MSG_URIS_NOT_ARRAY), file)
    else if |uris.elems| == 0 || !uris.elems[0].Str? then (Error(MSG_URI_NOT_STRING), file)
    else (Okay, Some(uris.elems[0].s))
  }

  /** The one handler `ReadResponseParamsSingle` registers. */
  function UrisHandlers(): seq<Handler<Option<string>>>
  {
    [Handler("uris", UrisRun)]
  }

  /** `ReadResponseParamsSingle`, as written, on the signal's arguments. */
  function DecodeResponse(args: seq<Value>, file: Option<string>): (Status, Option<string>)
  {
    if |args| == 0 then (Error(MSG_MISSING_ARGS), file)
    else if !args[0].U32? then (Error(MSG_NOT_U32), file)
    else if args[0].n != 0 then
      (if args[0].n == 1 then (Cancel, file) else (Error(MSG_ABRUPT), file))
    else if |args| < 2 then (Error(MSG_MISSING_ARGS), file)
    else
      var (st, file') := DecodeDict(args[1], UrisHandlers(), file);
      if st.Error? then (st, file') else (Okay, file')
  }

  /** The code of `ReadResponseParamsSingle`. */
  method ReadResponseParamsSingle(args: seq<Value>, file: Option<string>) returns (st: Status, file': Option<string>)
    ensures (st, file') == DecodeResponse(args, file)
  {
    if |args| == 0 {
      return Error(MSG_MISSING_ARGS), file;
    }
    if !args[0].U32? {
      return Error(MSG_NOT_U32), file;
    }
    var respCode := args[0].n;
    if respCode != 0 {
      if respCode == 1 {
        return Cancel, file;
      } else {
        return Error(MSG_ABRUPT), file;
      }
    }
    if |args| < 2 {
      return Error(MSG_MISSING_ARGS), file;
    }
    var dictStatus;
    dictStatus, file' := ReadDict(args[1], UrisHandlers(), file);
    if dictStatus.Error? {
      return dictStatus, file';
    }
    st := Okay;
  }

  /** The result code decides first: no argument or a non-`uint32` first
      argument is an error, `1` is a cancel and any code other than `0` and
      `1` an error; none of these touches `file`. Code `0` with no second
      argument is an error too. */
  lemma CodeClassified(args: seq<Value>, file: Option<string>)
    ensures |args| == 0 ==> DecodeResponse(args, file) == (Error(MSG_MISSING_ARGS), file)
    ensures |args| > 0 && !args[0].U32? ==> DecodeResponse(args, file) == (Error(MSG_NOT_U32), file)
    ensures |args| > 0 && args[0] == U32(1) ==> DecodeResponse(args, file) == (Cancel, file)
    ensures |args| > 0 && args[0].U32? && args[0].n > 1 ==> DecodeResponse(args, file) == (Error(MSG_ABRUPT), file)
    ensures args == [U32(0)] ==> DecodeResponse(args, file) == (Error(MSG_MISSING_ARGS), file)
  {
  }

  /** An OK status comes only from code `0` with a results array. */
  lemma OkayOnlyOnCodeZero(args: seq<Value>, file: Option<string>)
    requires DecodeResponse(args, file).0.Okay?
    ensures |args| >= 2 && args[0] == U32(0) && args[1].Array?
  {
  }

  /** A `uris` value that is not an array, or an array that is empty or
      does not start with a string, is an error. */
  lemma BadUrisRejected(uris: Value, file: Option<string>)
    ensures !uris.Array? ==> UrisRun(file, uris) == (Error(MSG_URIS_NOT_ARRAY), file)
    ensures uris.Array? && (|uris.elems| == 0 || !uris.elems[0].Str?) ==>
      UrisRun(file, uris) == (Error(MSG_URI_NOT_STRING), file)
    ensures UrisRun(file, uris).0.Okay? <==> uris.Array? && |uris.elems| > 0 && uris.elems[0].Str?
    ensures UrisRun(file, uris).0.Okay? ==> UrisRun(file, uris).1 == Some(uris.elems[0].s)
  {
  }

  /** A response whose `uris` holds object paths instead of strings is the
      not-a-string error, and `file` keeps what the caller put there. */
  lemma ObjectPathUrisRejected(path: string, file: Option<string>)
    ensures DecodeResponse([U32(0), Array("{sv}", [DictEntry([Str("uris"), Variant("ao", Array("o", [ObjPath(path)]))])])], file)
      == (Error(MSG_URI_NOT_STRING), file)
  {
    var e := DictEntry([Str("uris"), Variant("ao", Array("o", [ObjPath(path)]))]);
    assert ReadEntries([e], UrisHandlers(), file) == (Error(MSG_URI_NOT_STRING), file);
  }

  /** The results dictionary `{"uris": [u, ...]}`, optionally preceded by
      keys the reader does not know. */
  function Results(extra: seq<Value>, first: string, more: seq<string>): Value
  {
    Array("{sv}", extra + [UrisListEntry(first, more)])
  }

  /** The entry `"uris" → variant(as)` for the URIs `first, more...`. */
  function UrisListEntry(first: string, more: seq<string>): Value
  {
    DictEntry([Str("uris"), Variant("as", Array("s", [Str(first)] + Strs(more)))])
  }

  function Strs(ss: seq<string>): seq<Value>
  {
    if ss == [] then [] else [Str(ss[0])] + Strs(ss[1..])
  }

  /** The entry `key → variant` for a key other than `uris`. */
  predicate ForeignEntry(v: Value)
  {
    v.DictEntry? && |v.fields| == 2 && v.fields[0].Str? && v.fields[0].s != "uris" && v.fields[1].Variant?
  }

  /** A code-`0` response whose results hold `uris` after any number of
      unknown keys succeeds with the first URI: the unknown keys are skipped
      and only the first element of the array is taken. */
  lemma FirstUriTaken(extra: seq<Value>, first: string, more: seq<string>, file: Option<string>)
    requires forall i :: 0 <= i < |extra| ==> ForeignEntry(extra[i])
    ensures DecodeResponse([U32(0), Results(extra, first, more)], file) == (Okay, Some(first))
  {
    var uris := UrisListEntry(first, more);
    SkipForeign(extra, [uris], file);
    UrisEntryRead(first, more, [], file);
    assert [uris] + [] == [uris];
  }

  /** A `uris` entry stores its first URI into `file` and the walk goes
      on with the entries after it. */
  lemma UrisEntryRead(first: string, more: seq<string>, rest: seq<Value>, file: Option<string>)
    ensures ReadEntries([UrisListEntry(first, more)] + rest, UrisHandlers(), file)
      == ReadEntries(rest, UrisHandlers(), Some(first))
  {
    var e := UrisListEntry(first, more);
    assert ReadEntry(e.fields, UrisHandlers(), file) == (Okay, Some(first));
    assert ([e] + rest)[0] == e && ([e] + rest)[1..] == rest;
  }

  lemma {:induction false} SkipForeign(extra: seq<Value>, rest: seq<Value>, file: Option<string>)
    requires forall i :: 0 <= i < |extra| ==> ForeignEntry(extra[i])
    ensures ReadEntries(extra + rest, UrisHandlers(), file) == ReadEntries(rest, UrisHandlers(), file)
  {
    if extra != [] {
      var e := extra[0];
      assert ForeignEntry(e);
      assert |UrisHandlers()| == 1 && UrisHandlers()[0].key == "uris";
      UnknownKeySkipped(e.fields[0].s, e.fields[1].inner, UrisHandlers(), file);
      assert ReadEntry(e.fields, UrisHandlers(), file) == (Okay, file);
      assert (extra + rest)[0] == e;
      assert (extra + rest)[1..] == extra[1..] + rest;
      assert forall i :: 0 <= i < |extra| - 1 ==> extra[1..][i] == extra[i + 1];
      SkipForeign(extra[1..], rest, file);
      assert ReadEntries(extra + rest, UrisHandlers(), file) == ReadEntries(extra[1..] + rest, UrisHandlers(), file);
    } else {
      assert extra + rest == rest;
    }
  }

  /** The entry `"uris" → variant(as)` for one URI. */
  function UrisEntry(uri: string): Value
  {
    UrisListEntry(uri, [])
  }

  /** When `uris` appears twice, the later entry's first URI is the one
      kept, whatever unknown keys surround the two entries and however many
      URIs each carries. */
  lemma LaterUrisWins(pre: seq<Value>, a: string, moreA: seq<string>, mid: seq<Value>,
                      b: string, moreB: seq<string>, post: seq<Value>, file: Option<string>)
    requires forall i :: 0 <= i < |pre| ==> ForeignEntry(pre[i])
    requires forall i :: 0 <= i < |mid| ==> ForeignEntry(mid[i])
    requires forall i :: 0 <= i < |post| ==> ForeignEntry(post[i])
    ensures DecodeResponse([U32(0), Array("{sv}", pre + [UrisListEntry(a, moreA)] + mid + [UrisListEntry(b, moreB)] + post)], file)
      == (Okay, Some(b))
  {
    var ua, ub := UrisListEntry(a, moreA), UrisListEntry(b, moreB);
    var afterB := [ub] + post;
    var afterA := [ua] + (mid + afterB);
    assert pre + [ua] + mid + [ub] + post == pre + afterA;
    SkipForeign(pre, afterA, file);
    UrisEntryRead(a, moreA, mid + afterB, file);
    SkipForeign(mid, afterB, Some(a));
    UrisEntryRead(b, moreB, post, Some(a));
    SkipForeign(post, [], Some(b));
    assert post + [] == post;
  }

  /** A code-`0` response whose results carry only unknown keys succeeds
      without touching `file`: the caller then keeps waiting. */
  lemma NoUrisKeepsFile(extra: seq<Value>, file: Option<string>)
    requires forall i :: 0 <= i < |extra| ==> ForeignEntry(extra[i])
    ensures DecodeResponse([U32(0), Array("{sv}", extra)], file) == (Okay, file)
  {
    SkipForeign(extra, [], file);
    assert extra + [] == extra;
  }

  /** `ReadResponseParamsSingle` as its comment describes it: on a cancel
      or an error `file` is left as it was. */
  function DecodeResponseDocumented(args: seq<Value>, file: Option<string>): (r: (Status, Option<string>))
    ensures !r.0.Okay? ==> r.1 == file
    ensures r.0 == DecodeResponse(args, file).0
    ensures r.0.Okay? ==> r.1 == DecodeResponse(args, file).1
  {
    var (st, file') := DecodeResponse(args, file);
    if st.Okay? then (st, file') else (st, file)
  }

  /** As written, an error after the `uris` handler has run still leaves
      the URI in `file`: here the entry after `uris` has no string key. */
  lemma ErrorAfterUrisSetsFile()
    ensures var args := [U32(0), Array("{sv}", [
              DictEntry([Str("uris"), Variant("as", Array("s", [Str("file:///a")]))]),
              DictEntry([U32(7)])])];
      DecodeResponse(args, None) == (Error(MSG_NO_STRING_KEY), Some("file:///a")) &&
      DecodeResponseDocumented(args, None) == (Error(MSG_NO_STRING_KEY), None)
  {
    var e1 := DictEntry([Str("uris"), Variant("as", Array("s", [Str("file:///a")]))]);
    var e2 := DictEntry([U32(7)]);
    var elems := [e1, e2];
    assert elems[1..] == [e2];
    assert ReadEntries([e2], UrisHandlers(), Some("file:///a")) == (Error(MSG_NO_STRING_KEY), Some("file:///a"));
  }
}

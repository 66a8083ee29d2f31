/** Where the URI that `NFD_OpenDialogN` turns into a path lives. The
    `uris` handler does not copy the string: `dbus_message_iter_get_basic`
    hands out a pointer into the `Response` message, and `file` keeps that
    pointer. The message is owned by the guard of the inner loop's turn,
    which releases it when the turn ends, before `AllocAndCopyFIlePath`
    reads through `file`.

    Memory is a map from the messages still referenced to their bytes; a
    pointer names a message and an offset in it. A read through a pointer
    whose message is gone is undefined in C, and `None` here. */
module MessageLifetime {
  import opened Wrappers
  import opened Strings

  /** The messages still referenced, by identity. */
  type Store = map<nat, string>

  /** A `const char*` into the bytes of message `msg`. */
  datatype Ptr = Ptr(msg: nat, offset: nat)

  /** The C string at `p`, while its message is referenced. */
  function Deref(store: Store, p: Ptr): (r: Option<string>)
    ensures r.Some? <==> p.msg in store && p.offset <= |store[p.msg]|
    ensures r.Some? ==> r.value == CString(store[p.msg][p.offset..]) && r.value <= store[p.msg][p.offset..]
  {
    if p.msg in store && p.offset <= |store[p.msg]| then Some(CString(store[p.msg][p.offset..])) else None
  }

  /** `dbus_message_unref` of the last reference: the message is gone and
      every other message stays as it was. */
  function Unref(store: Store, id: nat): (r: Store)
    ensures id !in r
    ensures forall k :: k in r <==> k in store && k != id
    ensures forall k :: k in r ==> r[k] == store[k]
  {
    map k | k in store && k != id :: store[k]
  }

  /** As written: the guard releases the message at the end of the turn,
      and the copy into the returned path reads through `file` after it. */
  function CopiedAsWritten(store: Store, file: Ptr): Option<string>
  {
    Deref(Unref(store, file.msg), file)
  }

  /** As intended: the URI is copied while the message is still referenced,
      then the message is released. */
  function CopiedBeforeRelease(store: Store, file: Ptr): Option<string>
  {
    Deref(store, file)
  }

  /** The order `CopiedAsWritten` encodes, release before read, leaves
      nothing defined to read, whatever the store holds; and wherever the
      intended copy yields a URI, the as-written one yields none. The lemma
      adds no fact about the source beyond that order. */
  lemma CopyReadsReleased(store: Store, file: Ptr)
    ensures CopiedAsWritten(store, file) == None
    ensures CopiedBeforeRelease(store, file).Some? ==> CopiedAsWritten(store, file) != CopiedBeforeRelease(store, file)
  {
  }

  /** Copied before the release, the string is the URI the `Response`
      carried at that offset, and it stays the copy's after the release. */
  lemma CopyBeforeReleaseKeepsUri(store: Store, file: Ptr, uri: string)
    requires file.msg in store && file.offset <= |store[file.msg]|
    requires store[file.msg][file.offset..] == uri + ['\0'] && '\0' !in uri
    ensures CopiedBeforeRelease(store, file) == Some(uri)
    ensures file.msg !in Unref(store, file.msg)
  {
    var s := uri + ['\0'];
    assert s[|uri|] == '\0';
    assert forall k :: 0 <= k < |uri| ==> s[k] == uri[k] && s[k] != '\0';
    assert CString(s) == s[..|uri|] == uri;
  }
}

/** The values that travel on the bus, as an abstract tree. Marshalling and
    the byte layout of a message belong to libdbus and are not modelled; a
    message argument is one of these trees. */
module DBusValues {

  /** D-Bus `uint32`. */
  type u32 = n: int | 0 <= n < 0x1_0000_0000

  /** A D-Bus value. `Array` and `Variant` carry the signature their
      container was opened with (the `contained_signature` argument of
      `dbus_message_iter_open_container`), so that the declared shape can be
      compared with what was put inside. */
  datatype Value =
    | Str(s: string)
    | ObjPath(path: string)
    | U32(n: u32)
    | Bool(b: bool)
    | Array(elemSig: string, elems: seq<Value>)
    | DictEntry(fields: seq<Value>)
    | Variant(sig: string, inner: Value)
    | Struct(fields: seq<Value>)

  /** The type signature of a value: single letters for the basic types,
      `a` + element signature for an array, braces around a dict entry's
      fields and parentheses around a struct's. */
  function Sig(v: Value): string
    decreases v, 1
  {
    match v
    case Str(_) => "s"
    case ObjPath(_) => "o"
    case U32(_) => "u"
    case Bool(_) => "b"
    case Array(es, _) => "a" + es
    case DictEntry(fs) => "{" + SigList(fs) + "}"
    case Variant(_, _) => "v"
    case Struct(fs) => "(" + SigList(fs) + ")"
  }

  /** The signatures of a sequence of values, one after the other. */
  function SigList(vs: seq<Value>): string
    decreases vs, 0
  {
    if vs == [] then "" else Sig(vs[0]) + SigList(vs[1..])
  }

  /** Every container's declared signature agrees with its contents: each
      array element has the array's element signature, each variant's inner
      value has the variant's signature, and a dict entry is a basic key
      followed by one value. */
  predicate WellTyped(v: Value)
    decreases v, 1
  {
    match v
    case Array(es, elems) =>
      (forall i :: 0 <= i < |elems| ==> Sig(elems[i]) == es) && AllWellTyped(elems)
    case DictEntry(fs) =>
      |fs| == 2 && (fs[0].Str? || fs[0].ObjPath? || fs[0].U32? || fs[0].Bool?) && AllWellTyped(fs)
    case Variant(sig, inner) => Sig(inner) == sig && WellTyped(inner)
    case Struct(fs) => |fs| > 0 && AllWellTyped(fs)
    case _ => true
  }

  predicate AllWellTyped(vs: seq<Value>)
    decreases vs, 0
  {
    vs == [] || (WellTyped(vs[0]) && AllWellTyped(vs[1..]))
  }

  /** The signature of two values one after the other. */
  lemma SigListPair(a: Value, b: Value)
    ensures SigList([a, b]) == Sig(a) + Sig(b)
  {
    assert [a, b][1..] == [b];
    assert [b][1..] == [];
    assert SigList([b]) == Sig(b) + SigList([]);
  }

  /** A sequence is well typed exactly when each of its values is. */
  lemma {:induction false} AllWellTypedAt(vs: seq<Value>)
    ensures AllWellTyped(vs) <==> forall i :: 0 <= i < |vs| ==> WellTyped(vs[i])
  {
    if vs != [] {
      AllWellTypedAt(vs[1..]);
      assert forall i :: 1 <= i < |vs| ==> vs[i] == vs[1..][i - 1];
    }
  }

  /** The outcome codes of the library (`nfdresult_t`); an error carries the
      text the code hands to `NFDi_SetError`. */
  datatype Status = Okay | Cancel | Error(msg: string)

  /** The kinds of message a connection can pop. */
  datatype MessageKind = MethodCall | MethodReturn | ErrorReply | Signal

  /** An incoming message: its header fields and arguments. */
  datatype Message = Message(kind: MessageKind, iface: string, member: string, path: string, args: seq<Value>)
}

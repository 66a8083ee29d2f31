/** The predicted Request handle (`MakeUniqueObjectPath`):
    `/org/freedesktop/portal/desktop/request/SENDER/TOKEN`, where SENDER is
    the connection's unique name without its leading `':'` and with every
    `'.'` replaced by `'_'`, and TOKEN is the random token. */
module RequestHandle {
  import opened Strings
  import opened Buffers
  import opened RandomToken

  const PREFIX: string := "/org/freedesktop/portal/desktop/request/"

  /** The unique name with one leading `':'` dropped. */
  function Sender(uniqueName: string): string
  {
    if |uniqueName| > 0 && uniqueName[0] == ':' then uniqueName[1..] else uniqueName
  }

  /** The handle path for a unique name and a token. */
  function HandlePath(uniqueName: string, token: string): string
  {
    PREFIX + Sanitize(Sender(uniqueName)) + "/" + token
  }

  /** Where the token starts in the handle path. */
  function TokenOffset(uniqueName: string): nat
  {
    |PREFIX| + |Sender(uniqueName)| + 1
  }

  /** The size `sz` that `MakeUniqueObjectPath` computes: prefix, sender,
      one `'/'` and 64 token characters (the buffer has one more, for the
      terminator). */
  function AllocSize(uniqueName: string): nat
  {
    TokenOffset(uniqueName) + 2 * TOKEN_BYTES
  }

  /** A character allowed in an element of a D-Bus object path: `[A-Za-z0-9_]`. */
  predicate IsPathChar(c: char)
  {
    ('A' <= c <= 'Z') || ('a' <= c <= 'z') || ('0' <= c <= '9') || c == '_'
  }

  /** Every character is an element character or `'/'`. */
  predicate PathChars(p: string)
  {
    forall i :: 0 <= i < |p| ==> IsPathChar(p[i]) || p[i] == '/'
  }

  /** No two adjacent `'/'`, that is, no empty element. */
  predicate NoEmptyElement(p: string)
  {
    forall i :: 0 <= i < |p| - 1 ==> !(p[i] == '/' && p[i + 1] == '/')
  }

  /** The "Valid Object Paths" rules of the D-Bus Specification: a path
      starts with `'/'`, holds only `[A-Za-z0-9_]` and `'/'`, has no empty
      element and no trailing `'/'` unless it is `"/"` itself. */
  predicate ValidObjectPath(p: string)
  {
    |p| > 0 && p[0] == '/' && PathChars(p) && NoEmptyElement(p) && (p == "/" || p[|p| - 1] != '/')
  }

  lemma PathCharsConcat(a: string, b: string)
    requires PathChars(a) && PathChars(b)
    ensures PathChars(a + b)
  {
    assert forall i :: |a| <= i < |a + b| ==> (a + b)[i] == b[i - |a|];
  }

  lemma NoEmptyElementConcat(a: string, b: string)
    requires NoEmptyElement(a) && NoEmptyElement(b)
    requires |a| > 0 && |b| > 0 ==> !(a[|a| - 1] == '/' && b[0] == '/')
    ensures NoEmptyElement(a + b)
  {
    assert forall i :: |a| <= i < |a + b| ==> (a + b)[i] == b[i - |a|];
  }

  lemma PrefixFacts()
    ensures PathChars(PREFIX) && NoEmptyElement(PREFIX)
    ensures PREFIX[0] == '/' && PREFIX[|PREFIX| - 1] == '/'
  {
  }

  /** A unique name whose sender part, once sanitised, is a path element:
      non-empty, made of `[A-Za-z0-9_.]` (bus-assigned names such as
      `:1.42` are of this form). */
  predicate SaneUniqueName(uniqueName: string)
  {
    |Sender(uniqueName)| > 0 &&
    forall i :: 0 <= i < |Sender(uniqueName)| ==> IsPathChar(Sender(uniqueName)[i]) || Sender(uniqueName)[i] == '.'
  }

  /** The path is the prefix, the sanitised sender, a `'/'` and the token, and
      the token is exactly the part from `TokenOffset` on. */
  lemma TokenSuffix(uniqueName: string, token: string)
    ensures |HandlePath(uniqueName, token)| == TokenOffset(uniqueName) + |token|
    ensures HandlePath(uniqueName, token)[TokenOffset(uniqueName)..] == token
    ensures HandlePath(uniqueName, token)[..TokenOffset(uniqueName)] == PREFIX + Sanitize(Sender(uniqueName)) + "/"
  {
  }

  /** Different tokens give different paths for the same connection. */
  lemma HandlePathInjective(uniqueName: string, t1: string, t2: string)
    requires HandlePath(uniqueName, t1) == HandlePath(uniqueName, t2)
    ensures t1 == t2
  {
    TokenSuffix(uniqueName, t1);
    TokenSuffix(uniqueName, t2);
  }

  /** The colon of a unique name is dropped and its dots become underscores. */
  lemma SanitizedExample()
    ensures Sanitize(Sender(":1.42")) == "1_42"
  {
  }

  /** The sanitised sender holds no `'.'`, and every other character is kept. */
  lemma SanitizeKeeps(s: string)
    ensures '.' !in Sanitize(s)
    ensures forall i :: 0 <= i < |s| && s[i] != '.' ==> Sanitize(s)[i] == s[i]
    ensures forall i :: 0 <= i < |s| && s[i] == '.' ==> Sanitize(s)[i] == '_'
  {
    assert forall i :: 0 <= i < |s| ==> Sanitize(s)[i] != '.';
  }

  /** With a bus-assigned unique name and a token of token letters, the
      handle is a valid object path exactly when the token is non-empty:
      a run whose first `getrandom` call fails leaves a trailing `'/'`. */
  lemma ValidHandlePath(uniqueName: string, token: string)
    requires SaneUniqueName(uniqueName)
    requires forall i :: 0 <= i < |token| ==> IsTokenChar(token[i])
    ensures ValidObjectPath(HandlePath(uniqueName, token)) <==> |token| > 0
  {
    var s := Sanitize(Sender(uniqueName));
    SanitizeKeeps(Sender(uniqueName));
    assert forall i :: 0 <= i < |s| ==> IsPathChar(s[i]);
    assert forall i :: 0 <= i < |token| ==> IsPathChar(token[i]) by {
      forall i | 0 <= i < |token| ensures IsPathChar(token[i]) {
        assert IsTokenChar(token[i]);
      }
    }
    PrefixFacts();
    var p := HandlePath(uniqueName, token);
    assert p == ((PREFIX + s) + "/") + token;
    PathCharsConcat(PREFIX, s);
    NoEmptyElementConcat(PREFIX, s);
    PathCharsConcat(PREFIX + s, "/");
    NoEmptyElementConcat(PREFIX + s, "/");
    PathCharsConcat(PREFIX + s + "/", token);
    NoEmptyElementConcat(PREFIX + s + "/", token);
    assert p[0] == '/';
    if |token| > 0 {
      assert p[|p| - 1] == token[|token| - 1];
    } else {
      assert p[|p| - 1] == '/' && p != "/";
    }
  }

  /** `MakeUniqueObjectPath`: allocates `sz + 1` characters and fills them
      with the handle path, its terminator, and nothing past it. `tokenAt` is
      where the token starts (`handle_token_ptr`) and `len` where the
      terminator sits; `len <= sz`, with equality when the random source
      gave all 32 bytes. */
  method MakeUniqueObjectPath(uniqueName: string, rand: seq<RandomOutcome>)
    returns (path: array<char>, tokenAt: nat, len: nat)
    requires ValidTrace(rand, TOKEN_BYTES)
    ensures fresh(path) && path.Length == AllocSize(uniqueName) + 1
    ensures tokenAt == TokenOffset(uniqueName) <= len <= AllocSize(uniqueName)
    ensures path[..len] == HandlePath(uniqueName, Token(rand)) && path[len] == '\0'
    ensures path[tokenAt..len] == Token(rand)
  {
    var sender := uniqueName;
    if |sender| > 0 && sender[0] == ':' {
      sender := sender[1..];
    }
    var sz := |PREFIX| + |sender| + 1 + 2 * TOKEN_BYTES;
    path := new char[sz + 1];
    var p := CopyAfter(PREFIX, path, 0, []);
    p := TransformAfter(sender, path, p, PREFIX);
    p := PutAfter('/', path, p, PREFIX + Sanitize(sender));
    ghost var s3 := path[..];
    tokenAt := p;
    len := Generate64RandomChars(path, p, rand);
    ghost var s4 := path[..];
    Extend(s3, s4, p, Token(rand), PREFIX + Sanitize(sender) + "/");
    path[len] := '\0';
    assert path[..] == s4[len := '\0'];
    WriteAfter(s4, len, '\0');
  }

  /** Writing at `len` leaves `[..len]` alone. */
  lemma WriteAfter(s: string, len: nat, c: char)
    requires len < |s|
    ensures s[len := c][..len] == s[..len] && s[len := c][len] == c
  {
  }
}

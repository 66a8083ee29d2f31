/** Turning the portal's `file://` URI into a path (`AllocAndCopyFIlePath`).
    The URI is a C string: its characters up to, not including, the NUL
    terminator; reading the place of the terminator gives `'\0'`. No percent
    decoding is done: the remainder is copied as it is. */
module FileUri {
  import opened Wrappers
  import opened Buffers

  const FILE_URI_PREFIX: string := "file://"
  const MSG_NOT_FILE_URI: string := "D-Bus freedesktop portal returned a URI that is not a file URI."

  /** The character at place `i` of a C string, the terminator included. */
  function CharAt(s: string, i: nat): char
    requires i <= |s|
  {
    if i == |s| then '\0' else s[i]
  }

  /** The path a URI names, or the error message. */
  function FilePath(uri: string): (r: Result<string, string>)
    ensures r.Ok? <==> |uri| >= |FILE_URI_PREFIX| && uri[..|FILE_URI_PREFIX|] == FILE_URI_PREFIX
    ensures r.Err? ==> r.error == MSG_NOT_FILE_URI
  {
    if FILE_URI_PREFIX <= uri then Ok(uri[|FILE_URI_PREFIX|..]) else Err(MSG_NOT_FILE_URI)
  }

  /** The path put back behind the prefix is the URI again. */
  lemma FilePathRestores(uri: string)
    requires FilePath(uri).Ok?
    ensures FILE_URI_PREFIX + FilePath(uri).value == uri
  {
    assert uri == uri[..|FILE_URI_PREFIX|] + uri[|FILE_URI_PREFIX|..];
  }

  /** Every path is found again behind the prefix, whatever it holds. */
  lemma FilePathOfPrefixed(path: string)
    ensures FilePath(FILE_URI_PREFIX + path) == Ok(path)
  {
    assert (FILE_URI_PREFIX + path)[..|FILE_URI_PREFIX|] == FILE_URI_PREFIX;
    assert (FILE_URI_PREFIX + path)[|FILE_URI_PREFIX|..] == path;
  }

  /** A URI of another scheme, and a path with a space that is kept as it is. */
  lemma FilePathExamples()
    ensures FilePath("http://example/a") == Err(MSG_NOT_FILE_URI)
    ensures FilePath("file:///a/b c") == Ok("/a/b c")
    ensures FilePath("file:///tmp/a.txt") == Ok("/tmp/a.txt")
    ensures FilePath("file:/") == Err(MSG_NOT_FILE_URI)
  {
    assert "http://example/a"[0] != FILE_URI_PREFIX[0];
    FilePathOfPrefixed("/a/b c");
    assert FILE_URI_PREFIX + "/a/b c" == "file:///a/b c";
    FilePathOfPrefixed("/tmp/a.txt");
    assert FILE_URI_PREFIX + "/tmp/a.txt" == "file:///tmp/a.txt";
  }

  /** `AllocAndCopyFIlePath`: compares the URI with the prefix character by
      character, stopping at the first difference (the terminator of a
      shorter URI is one); on a match copies the remainder and its terminator
      into a fresh buffer of `len + 1` places. */
  method AllocAndCopyFilePath(uri: string) returns (r: Result<array<char>, string>)
    requires '\0' !in uri
    ensures r.Err? <==> FilePath(uri).Err?
    ensures r.Err? ==> r.error == MSG_NOT_FILE_URI
    ensures r.Ok? ==> fresh(r.value) && r.value.Length == |FilePath(uri).value| + 1
    ensures r.Ok? ==> r.value[..r.value.Length - 1] == FilePath(uri).value && r.value[r.value.Length - 1] == '\0'
  {
    var i := 0;
    while i < |FILE_URI_PREFIX|
      invariant i <= |FILE_URI_PREFIX| && i <= |uri|
      invariant uri[..i] == FILE_URI_PREFIX[..i]
    {
      if FILE_URI_PREFIX[i] != CharAt(uri, i) {
        return Err(MSG_NOT_FILE_URI);
      }
      assert i < |uri|;
      assert uri[..i + 1] == uri[..i] + [uri[i]];
      i := i + 1;
    }
    var rest := uri[i..];
    var len := |rest|;
    var out := new char[len + 1];
    var end := CopyAfter(rest, out, 0, []);
    end := PutAfter('\0', out, end, rest);
    assert out[..] == out[..end];
    assert out[..len] == out[..end][..len];
    r := Ok(out);
  }
}

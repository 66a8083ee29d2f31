/** The `copy` and `transform` helpers: loops that fill a preallocated
    character buffer from a string and return the position after the last
    character written. */
module Buffers {

  /** The `'.'`-to-`'_'` callback that `MakeUniqueObjectPath` passes to `transform`. */
  function DotToUnderscore(c: char): (r: char)
  {
    if c != '.' then c else '_'
  }

  /** What `transform` with that callback produces from `s`. */
  function Sanitize(s: string): (r: string)
    ensures |r| == |s|
    ensures forall i :: 0 <= i < |s| ==> r[i] == DotToUnderscore(s[i])
  {
    if s == [] then [] else [DotToUnderscore(s[0])] + Sanitize(s[1..])
  }

  /** `copy(src, src + |src|, out + at)`. */
  method Copy(src: string, out: array<char>, at: nat) returns (end: nat)
    requires at + |src| <= out.Length
    modifies out
    ensures end == at + |src|
    ensures out[..] == old(out[..at]) + src + old(out[end..])
  {
    ghost var orig := out[..];
    end := at;
    var i := 0;
    while i != |src|
      invariant 0 <= i <= |src| && end == at + i
      invariant out[..] == orig[..at] + src[..i] + orig[end..]
    {
      ghost var s := out[..];
      out[end] := src[i];
      WriteOne(s, orig, at, end, src[..i], src[i]);
      assert src[..i + 1] == src[..i] + [src[i]];
      end := end + 1;
      i := i + 1;
    }
    assert src[..i] == src;
    assert old(out[..at]) == orig[..at] && old(out[end..]) == orig[end..];
  }

  /** `transform(src, src + |src|, out + at, DotToUnderscore)`. */
  method Transform(src: string, out: array<char>, at: nat) returns (end: nat)
    requires at + |src| <= out.Length
    modifies out
    ensures end == at + |src|
    ensures out[..] == old(out[..at]) + Sanitize(src) + old(out[end..])
  {
    ghost var orig := out[..];
    ghost var target := Sanitize(src);
    end := at;
    var i := 0;
    while i != |src|
      invariant 0 <= i <= |src| && end == at + i
      invariant out[..] == orig[..at] + target[..i] + orig[end..]
    {
      ghost var s := out[..];
      out[end] := DotToUnderscore(src[i]);
      WriteOne(s, orig, at, end, target[..i], target[i]);
      assert target[..i + 1] == target[..i] + [target[i]];
      end := end + 1;
      i := i + 1;
    }
    assert target[..i] == target;
    assert old(out[..at]) == orig[..at] && old(out[end..]) == orig[end..];
  }

  /** `copy` into a buffer whose first `at` places hold `built`: afterwards
      the first `at + |src|` places hold `built + src`. */
  method CopyAfter(src: string, out: array<char>, at: nat, ghost built: string) returns (end: nat)
    requires at + |src| <= out.Length && out[..at] == built
    modifies out
    ensures end == at + |src|
    ensures out[..end] == built + src
  {
    ghost var before := out[..];
    end := Copy(src, out, at);
    Extend(before, out[..], at, src, built);
  }

  /** `transform` into a buffer whose first `at` places hold `built`. */
  method TransformAfter(src: string, out: array<char>, at: nat, ghost built: string) returns (end: nat)
    requires at + |src| <= out.Length && out[..at] == built
    modifies out
    ensures end == at + |src|
    ensures out[..end] == built + Sanitize(src)
  {
    ghost var before := out[..];
    end := Transform(src, out, at);
    Extend(before, out[..], at, Sanitize(src), built);
  }

  /** `*out++ = c` on a buffer whose first `at` places hold `built`. */
  method PutAfter(c: char, out: array<char>, at: nat, ghost built: string) returns (end: nat)
    requires at < out.Length && out[..at] == built
    modifies out
    ensures end == at + 1
    ensures out[..end] == built + [c]
  {
    ghost var before := out[..];
    out[at] := c;
    assert out[..] == before[at := c];
    WriteOne(before, before, 0, at, before[..at], c);
    end := at + 1;
  }

  /** Writing `piece` at `p`, right after the `built` prefix, extends the prefix by it. */
  lemma Extend(before: string, after: string, p: nat, piece: string, built: string)
    requires p + |piece| <= |before| && before[..p] == built
    requires after == before[..p] + piece + before[p + |piece|..]
    ensures after[..p + |piece|] == built + piece
  {
  }

  /** Overwriting the place after `w` appends that character to `w`. */
  lemma WriteOne(s: string, orig: string, at: nat, end: nat, w: string, c: char)
    requires end == at + |w| && end + 1 <= |orig|
    requires s == orig[..at] + w + orig[end..]
    ensures s[end := c] == orig[..at] + (w + [c]) + orig[end + 1..]
  {
  }
}

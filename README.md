# Portal backend of nativefiledialog-extended, modelled in Dafny

This project models the XDG Desktop Portal backend of nativefiledialog-extended
(`src/nfd_portal.cpp`): the client side of
`org.freedesktop.portal.FileChooser.OpenFile` and of the
`org.freedesktop.portal.Request::Response` signal that answers it. It also
proves properties of the model.

D-Bus itself is not modelled. Message arguments are trees of `DBusValues.Value`.
What the bus answers during one `NFD_OpenDialogN` is an oracle (`Portal.Bus`):
- the outcome of each `add_match`;
- the reply to `OpenFile`;
- the messages already queued;
- what each `dbus_connection_read_write` delivers.

What the library asks of the bus is recorded, in order, in `Backend.calls`.
The kernel's random source is an oracle too: the sequence of `getrandom`
outcomes (`RandomToken.RandomOutcome`).

Modules, in the order of the C file:

- `Buffers`: the `copy` and `transform` loops that fill preallocated buffers.
- `RandomToken`: `Generate64RandomChars` fills an `array<char>` from the
  `getrandom` trace. The specification function `Token` encodes each byte as
  its low nibble's letter, then its high nibble's.
- `RequestHandle`: `MakeUniqueObjectPath` produces the predicted Request handle.
- `MatchRule`: `MakeResponseSubscriptionPath` produces the match-rule text.
- `Request`: the `OpenFile` arguments (`AppendOpenFileQueryParams` and its
  helpers), including the walk over each filter spec.
- `Dict`: `ReadDict` / `ReadDictImpl`. A handler is a key and a function on
  the caller's state; that state is what the C lambdas capture by reference.
- `Response`: `ReadResponseParamsSingle`.
- `FileUri`: `AllocAndCopyFIlePath`.
- `MessageLifetime`: where the URI lives between the `uris` handler and the
  copy into the returned path.
- `Correlation`: the pop / `read_write` double loop of `NFD_OpenDialogN`.
- `Portal`: the process-wide state and `NFD_OpenDialogN`.
  - `class Backend`: `err_ptr`, `dbus_err`, the unique name and the request log.
  - `class SubscriptionHandler`: `DBusSignalSubscriptionHandler` with its `sub_cmd`.
- `Strings`, `Wrappers`, `DBusValues`: shared definitions. These are C strings
  (`CString`), split/join as a reference definition, and the value tree with
  its signatures.

The registration of match rules is a ghost multiset, `Backend.registered`.
Each method that logs requests states what `registered` becomes. This is the old
value with the logged requests applied (`Apply`, `ApplyAll`). The constructor
starts both the log and `registered` empty. `OpenDialog` keeps
`registered == Registered(calls)`, the fold of the whole log, whenever it held
before the call.

The model follows the code where it departs from what the code's comments or
its API description suggest:
- A failed `add_match` still leaves `sub_cmd` set, so the destructor issues
  `remove_match` for a rule that was never added (`FailedAddRemovesEarlier`).
- Calling `Unsubscribe` twice in a row is not a no-op: it needs a held rule,
  because the C frees `sub_cmd` unconditionally. Releasing twice is a no-op;
  that is the destructor, `SubscriptionHandler.Release`.
- The token alphabet is `'A'..'P'`, not all of `[A-Za-z0-9_]`.
- After an OK `Response` without `uris`, the inner loop stops and the
  connection is serviced. A URI response already queued behind it is lost if
  the connection then reports closed (`QueuedUriLostOnClose`).
- A failed re-subscription to the portal's own request path is ignored, but it
  still replaces `dbus_err` and sets `err_ptr`. A later successful return
  leaves that error readable.
- The error slot is never cleared by a successful call, only by
  `NFD_ClearError`.
- The filter walk never compares the first character of a piece, so a leading
  or doubled comma stays inside a pattern (`LeadingCommaKept`). The patterns
  are the comma-separated segments only when no segment is empty
  (`FilterPatternsAreSegments`).

## Model

| member | source | states |
|---|---|---|
| Buffers.Sanitize | src/nfd_portal.cpp:667-668 | the sanitised sender has the same length as the sender; each character is the sender's with `'.'` mapped to `'_'` |
| Buffers.Copy | src/nfd_portal.cpp:74-80 | writes `src` at `out[at..]` and returns the index after it; nothing else in the buffer changes |
| Buffers.Transform | src/nfd_portal.cpp:82-88 | writes the mapped `src` at `out[at..]` and returns the index after it; nothing else changes |
| Buffers.CopyAfter | src/nfd_portal.cpp:74-80 | on a buffer starting with `built`, the buffer then starts with `built + src` |
| Buffers.TransformAfter | src/nfd_portal.cpp:82-88 | on a buffer starting with `built`, the buffer then starts with `built + Sanitize(src)` |
| Buffers.PutAfter | src/nfd_portal.cpp:669 | a single-character store (`*path_ptr++ = '/'` here, and the terminator stores at lines 672 and 743) extends the built prefix by that one character |
| RandomToken.Decode | src/nfd_portal.cpp:638-643 | reading letter pairs back gives one byte for every two letters |
| RandomToken.Encode | src/nfd_portal.cpp:640-643 | reference definition: each byte becomes the letters of its low, then its high nibble, in order |
| RandomToken.Token | src/nfd_portal.cpp:628-647 | reference definition: the token is the encoding of the bytes the `getrandom` trace obtained |
| RandomToken.EncodeAt | src/nfd_portal.cpp:640-643 | byte `k` appears as `'A' + (b & 15)` at `2k`, then `'A' + (b >> 4)` at `2k + 1` |
| RandomToken.EncodeLength | src/nfd_portal.cpp:640-643 | two letters per byte |
| RandomToken.EncodeAppend | src/nfd_portal.cpp:630-645 | the letters for two runs of bytes are the letters of the first run, then of the second |
| RandomToken.EncodeAlphabet | src/nfd_portal.cpp:641-642 | every letter lies in `'A'..'P'` |
| RandomToken.DecodeEncode | src/nfd_portal.cpp:641-642 | every pair of letters decodes to its byte, `(c0 - 'A') + 16 * (c1 - 'A')` |
| RandomToken.ObtainedBound | src/nfd_portal.cpp:629-639 | a run obtains at most 32 bytes, and exactly 32 if and only if no `getrandom` call failed |
| RandomToken.TokenLength | src/nfd_portal.cpp:628-647 | the token has two letters per byte obtained, never more than 64, and exactly 64 if and only if no call failed |
| RandomToken.InterruptedIsRetried | src/nfd_portal.cpp:633-635 | an `EINTR` result adds nothing and is retried with the same amount |
| RandomToken.CallStep | src/nfd_portal.cpp:632-644 | what one `getrandom` call contributes in each of its three outcomes |
| RandomToken.WriteEncoded | src/nfd_portal.cpp:640-643 | the inner loop writes the letters of the chunk after `at`, and nothing else |
| RandomToken.RandomCall | src/nfd_portal.cpp:631-644 | one outer turn: the trace advances by one call, `stop` exactly on a failure other than `EINTR`, the amount drops by the bytes obtained and their letters are appended |
| RandomToken.Generate64RandomChars | src/nfd_portal.cpp:628-647 | the buffer holds `Token(rand)` from `at` on and is unchanged elsewhere; the returned end is `at` plus its length, at most `at + 64` |
| RequestHandle.TokenSuffix | src/nfd_portal.cpp:662-672 | the handle path is the prefix, the sanitised sender and `'/'`, followed by exactly the token from `TokenOffset` on |
| RequestHandle.Sender | src/nfd_portal.cpp:657-668 | reference definition: the unique name without its leading `':'`, with `'.'` made `'_'` |
| RequestHandle.HandlePath | src/nfd_portal.cpp:656-674 | reference definition: the fixed prefix, the sender, `'/'` and the token |
| RequestHandle.HandlePathInjective | src/nfd_portal.cpp:656-674 | different tokens give different handle paths for the same connection |
| RequestHandle.SanitizedExample | src/nfd_portal.cpp:658-668 | `":1.42"` gives the sender element `"1_42"` |
| RequestHandle.SanitizeKeeps | src/nfd_portal.cpp:667-668 | the sanitised sender holds no `'.'`; every other character is kept |
| RequestHandle.PrefixFacts | src/nfd_portal.cpp:649 | helper fact about the constant prefix: it starts and ends with `'/'` and is made of path characters |
| RequestHandle.ValidHandlePath | src/nfd_portal.cpp:656-674 | for a bus-assigned unique name, the handle is a valid D-Bus object path if and only if the token is non-empty |
| RequestHandle.MakeUniqueObjectPath | src/nfd_portal.cpp:656-674 | a fresh buffer of `sz + 1` places holding the handle path then `'\0'`; the token starts at the returned offset; the written length is at most `sz` |
| MatchRule.RuleLength | src/nfd_portal.cpp:724-729 | helper fact for the allocation: the rule is exactly `sz` characters long |
| MatchRule.RuleIsJoin | src/nfd_portal.cpp:711-722 | the rule is its six `key='value'` clauses joined by commas |
| MatchRule.Rule | src/nfd_portal.cpp:711-745 | reference definition: `PATH_1 + handle_path + PATH_2 + unique_name + "'"` |
| MatchRule.RuleClauses | src/nfd_portal.cpp:711-744 | with no comma in the path or the name, splitting the rule at commas gives exactly the six clauses; the unique name is unsanitised |
| MatchRule.FixedClausesCommaFree | src/nfd_portal.cpp:711-720 | helper fact about the constants: the fixed clauses hold no comma |
| MatchRule.InterfaceCommaFree | src/nfd_portal.cpp:717 | helper fact about the constants: the interface clause holds no comma |
| MatchRule.RuleInjective | src/nfd_portal.cpp:724-745 | the rule determines the handle path and the unique name it was built from |
| MatchRule.MakeResponseSubscriptionPath | src/nfd_portal.cpp:724-745 | a fresh buffer of `sz + 1` places holding `PATH_1 + handle_path + PATH_2 + unique_name + "'"` then `'\0'` |
| Strings.CString | src/nfd_portal.cpp:753-767 | the C string a buffer holds is NUL-free and a prefix of it, ends exactly at the first NUL when there is one, and is the whole text when there is none |
| Strings.SplitPiecesFree | src/nfd_portal.cpp:143-165 | no piece of a split holds the separator |
| Strings.SplitJoin | src/nfd_portal.cpp:711-744 | split undoes join when no piece holds the separator |
| Strings.JoinSplit | src/nfd_portal.cpp:143-165 | join undoes split |
| Strings.SplitAfterPiece | src/nfd_portal.cpp:143-165 | splitting starts with the piece before the first separator |
| DBusValues.SigListPair | src/nfd_portal.cpp:96-197 | the signature of two values is theirs, one after the other |
| DBusValues.AllWellTypedAt | src/nfd_portal.cpp:96-197 | a sequence is well typed if and only if each of its values is |
| Request.Stop | src/nfd_portal.cpp:151-153 | the `do`-loop stops at the first comma or the terminator at or after its start |
| Request.StopSkipsNoComma | src/nfd_portal.cpp:151-153 | no comma lies before that stop |
| Request.WalkableFrom | src/nfd_portal.cpp:143-165 | reference definition: every turn of the outer loop starts before the terminator, until a stop at the terminator ends the walk |
| Request.EndsInPieceWalkable | src/nfd_portal.cpp:150-156 | a spec that does not end in a comma is walked from any position without stepping over its terminator |
| Request.TrailingCommaPiece | src/nfd_portal.cpp:150-164 | a trailing comma that begins a piece is read like any other character: `","` gives `","`, and `"png,,"` gives `"png"` and `","` |
| Request.OverreadSpecs | src/nfd_portal.cpp:150-153 | the empty spec and `"png,"` start a turn at the terminator, so the `do`-loop steps over it |
| Request.Walk | src/nfd_portal.cpp:143-165 | the walk hands out at least one piece |
| Request.WalkJoin | src/nfd_portal.cpp:143-165 | the pieces joined by commas give back the spec: nothing is lost or invented |
| Request.WalkIsSplit | src/nfd_portal.cpp:143-165 | for a spec with no empty segment, the pieces are exactly its comma-separated segments, in order |
| Request.WalkPiecesCommaFree | src/nfd_portal.cpp:143-165 | for a spec with no empty segment, no piece holds a comma |
| Request.LeadingCommaKept | src/nfd_portal.cpp:143-165 | `",png"` gives the single pattern `",png"` because the first character is never compared |
| Request.Patterns | src/nfd_portal.cpp:146-158 | one pattern per piece |
| Request.PatternsAt | src/nfd_portal.cpp:146-158 | pattern `i` is `(0, piece i)` |
| Request.PatternsSnoc | src/nfd_portal.cpp:146-158 | patterns of one more piece add its pattern at the end |
| Request.ScanSegment | src/nfd_portal.cpp:151-153 | the inner `do`-loop returns the stop |
| Request.NextPiece | src/nfd_portal.cpp:151-164 | one outer turn: the piece up to the stop, and whether it was the last |
| Request.WalkStep | src/nfd_portal.cpp:151-164 | one step of the walk: the piece up to the stop, then the rest |
| Request.FilterPatterns | src/nfd_portal.cpp:143-166 | the pattern loop gives the patterns of the spec's pieces, in order |
| Request.FilterTuples | src/nfd_portal.cpp:139-171 | one tuple per filter |
| Request.FilterTuplesAt | src/nfd_portal.cpp:139-171 | tuple `i` is the tuple of filter `i` |
| Request.FilterTuplesSnoc | src/nfd_portal.cpp:139-171 | tuples of one more filter add its tuple at the end |
| Request.AppendFilters | src/nfd_portal.cpp:139-171 | the loop over `filterList` gives each filter's tuple, in order |
| Request.AppendOpenFileQueryParams | src/nfd_portal.cpp:177-197 | the arguments are `""`, `"Open File"`, then the options dictionary |
| Request.Keys | src/nfd_portal.cpp:96-197 | one key per entry |
| Request.QueryOrder | src/nfd_portal.cpp:179-197 | the three arguments in order; the first option is always `handle_token` with the token as a string variant |
| Request.QueryKeys | src/nfd_portal.cpp:187-196 | `multiple` is present if and only if `Multiple` is true, `filters` if and only if `filterCount != 0`, and no key appears twice |
| Request.FilterPatternsAreSegments | src/nfd_portal.cpp:143-165 | a NUL-free spec with no empty segment can be walked, and its kind-0 patterns are exactly its comma-separated segments |
| Request.PatternTyped | src/nfd_portal.cpp:146 | a pattern has signature `(us)` |
| Request.FilterTupleTyped | src/nfd_portal.cpp:140-142 | a filter tuple has signature `(sa(us))` and is well typed |
| Request.FiltersEntryTyped | src/nfd_portal.cpp:136-138 | the `filters` entry is a well-typed `{sv}` holding `a(sa(us))` |
| Request.EntryTyped | src/nfd_portal.cpp:96-122 | a string key with a matching variant is a well-typed `{sv}` entry |
| Request.OptionsTyped | src/nfd_portal.cpp:186-196 | every option is a well-typed `{sv}` entry |
| Request.QueryWellTyped | src/nfd_portal.cpp:179-197 | the arguments are well typed and their signature is `ssa{sv}` |
| Request.AllocaPieceExact | src/nfd_portal.cpp:158-162 | the piece read from the `alloca` buffer is right if and only if the byte after it is already NUL |
| Request.AllocaPieceOverreads | src/nfd_portal.cpp:158-162 | for `"png,jpg"`, a buffer that held `"x"` turns the first pattern into `"pngx"`; the intended patterns are `"png"`, `"jpg"` |
| Dict.Dispatch | src/nfd_portal.cpp:199-215 | reference definition: the first handler whose key equals the entry's runs; with none, nothing runs and the result is OK |
| Dict.ReadEntry | src/nfd_portal.cpp:229-248 | reference definition: the entry's string-key, value and variant checks, then the dispatch of the variant's contents |
| Dict.ReadEntries | src/nfd_portal.cpp:228-251 | reference definition: entries are read in order until the elements end, an element is not a dict entry, or an entry fails |
| Dict.DecodeDict | src/nfd_portal.cpp:221-251 | reference definition: a non-array is an error, an array is read entry by entry |
| Dict.ReadDict | src/nfd_portal.cpp:221-252 | the loop ends with the status and state of the entry-by-entry walk |
| Dict.NotArrayIsError | src/nfd_portal.cpp:222-225 | a non-array argument is an error and runs no handler |
| Dict.FirstMatchRuns | src/nfd_portal.cpp:204-215 | the value goes to the first handler whose key matches, whatever the later ones are |
| Dict.UnknownKeySkipped | src/nfd_portal.cpp:199-215 | a key with no handler runs nothing and is OK |
| Dict.UnknownEntrySkipped | src/nfd_portal.cpp:228-249 | a well-formed entry with an unknown key leaves the walk as if it were absent |
| Dict.MalformedEntryRejected | src/nfd_portal.cpp:231-245 | an entry without a string key, without a value, or with a non-variant value is the matching error, and no handler runs |
| Dict.ErrorAborts | src/nfd_portal.cpp:248 | an entry or handler error ends the walk; nothing after it is looked at |
| Dict.StopsAtNonEntry | src/nfd_portal.cpp:228 | the walk stops without error at the first element that is not a dict entry, with the status and state the entries before it left; what follows is never read |
| Response.ReadResponseParamsSingle | src/nfd_portal.cpp:257-301 | the status and `file` are those of `DecodeResponse` |
| Response.UrisRun | src/nfd_portal.cpp:284-297 | reference definition: the `uris` callback's two checks, then the first string becomes `file` |
| Response.DecodeResponse | src/nfd_portal.cpp:257-301 | reference definition: the code checks, then the results read with the `uris` handler only |
| Response.CodeClassified | src/nfd_portal.cpp:259-283 | no or a non-`uint32` first argument is an error, 1 is a cancel, a code above 1 an error, and code 0 without a second argument an error; none touches `file` |
| Response.OkayOnlyOnCodeZero | src/nfd_portal.cpp:269-300 | OK comes only from code 0 with a results array |
| Response.BadUrisRejected | src/nfd_portal.cpp:284-296 | a non-array is the not-an-array error; an empty array, or one whose first element is not a string, is the not-a-string error; both leave `file` as it was; OK if and only if the value is an array starting with a string, and then the file is that string |
| Response.ObjectPathUrisRejected | src/nfd_portal.cpp:284-296 | a response whose `uris` is an array of object paths is the not-a-string error, with `file` as it was |
| Response.FirstUriTaken | src/nfd_portal.cpp:284-300 | `uris` after any unknown keys gives OK with the first URI |
| Response.SkipForeign | src/nfd_portal.cpp:228-251 | unknown keys are skipped |
| Response.UrisEntryRead | src/nfd_portal.cpp:284-296 | a `uris` entry stores its first URI into `file` and the walk continues after it |
| Response.LaterUrisWins | src/nfd_portal.cpp:284-296 | with two `uris` entries, each holding any number of URIs and surrounded by any unknown keys, the second entry's first URI is the one returned |
| Response.NoUrisKeepsFile | src/nfd_portal.cpp:284-300 | results with only unknown keys are OK and leave `file` untouched |
| Response.DecodeResponseDocumented | src/nfd_portal.cpp:254-256 | on cancel or error `file` is untouched; otherwise the same as the code |
| Response.ErrorAfterUrisSetsFile | src/nfd_portal.cpp:284-298 | as written, an error after the `uris` handler ran leaves the URI in `file` |
| FileUri.FilePath | src/nfd_portal.cpp:748-767 | succeeds if and only if the URI starts with the 7 characters `file://`; the error is the not-a-file-URI message |
| FileUri.FilePathRestores | src/nfd_portal.cpp:761-764 | the prefix followed by the path is the URI again: the rest is copied verbatim |
| FileUri.FilePathOfPrefixed | src/nfd_portal.cpp:761-764 | every path comes back unchanged behind the prefix |
| FileUri.FilePathExamples | src/nfd_portal.cpp:753-767 | `"file:///a/b c"` gives `"/a/b c"`; `http` and too-short URIs fail |
| FileUri.AllocAndCopyFilePath | src/nfd_portal.cpp:753-767 | fails if and only if `FilePath` fails, with its message; otherwise a fresh buffer holding the path then `'\0'` |
| Correlation.IsResponse | src/nfd_portal.cpp:876 | reference definition: a signal with the Request interface and the `Response` member; path and sender are not compared |
| Correlation.Wait | src/nfd_portal.cpp:867-890 | reference definition: drain the queue; on no URI service the connection and drain what arrived, until a URI, a cancel or error, or a close |
| Correlation.Drain | src/nfd_portal.cpp:869-882 | a response leaves fewer messages queued |
| Correlation.PopUntilResponse | src/nfd_portal.cpp:869-882 | the inner loop ends as `Drain` says |
| Correlation.WaitForResponse | src/nfd_portal.cpp:867-885 | the double loop ends as `Wait` says |
| Correlation.NonResponsesSkipped | src/nfd_portal.cpp:871-876 | messages other than a `Response` signal are dropped unread |
| Correlation.FirstResponseRead | src/nfd_portal.cpp:876-881 | the first `Response` decides the inner loop, whatever follows it |
| Correlation.StopOnCancelOrError | src/nfd_portal.cpp:878-880 | a cancel or error response ends the wait with that status |
| Correlation.UriEndsWait | src/nfd_portal.cpp:876-884 | a response with a URI ends the wait with it, whatever its object path |
| Correlation.OkWithoutUriKeepsWaiting | src/nfd_portal.cpp:881-885 | an OK response without `uris` keeps waiting: what is still queued comes before what arrives; a close then ends with no reply |
| Correlation.ClosedBeforeResponse | src/nfd_portal.cpp:885-890 | a close before any response ends with no reply |
| Correlation.UriDecoded | src/nfd_portal.cpp:257-301 | a response holding one URI reads as OK with it |
| Correlation.UriResponseEndsWait | src/nfd_portal.cpp:867-885 | such a response alone in the queue ends the wait with its URI |
| Correlation.QueuedUriLostOnClose | src/nfd_portal.cpp:867-885 | an empty OK response followed by a URI response, then a close, ends with no reply |
| Correlation.DrainSound | src/nfd_portal.cpp:869-882 | the inner loop reads a queued `Response` and leaves queued exactly what followed it |
| Correlation.WaitSound | src/nfd_portal.cpp:867-885 | a URI the wait returns came from a queued or delivered `Response` read as OK |
| MessageLifetime.Deref | src/nfd_portal.cpp:295 | a read through a pointer is defined if and only if its message is still referenced, and is then the C string at the offset |
| MessageLifetime.Unref | src/nfd_portal.cpp:53-57 | releasing a message removes it and keeps every other message as it was |
| MessageLifetime.CopiedAsWritten | src/nfd_portal.cpp:868-895 | reference definition: the copy reads through `file` after the guard released the message |
| MessageLifetime.CopiedBeforeRelease | src/nfd_portal.cpp:868-895 | reference definition: the copy reads through `file` while the message is referenced |
| MessageLifetime.CopyReadsReleased | src/nfd_portal.cpp:873-893 | in the release-then-read order of the source, the copy never reads defined memory, whatever the store holds, and it differs from the intended copy wherever that one yields a URI; the order itself is what `CopiedAsWritten` encodes |
| MessageLifetime.CopyBeforeReleaseKeepsUri | src/nfd_portal.cpp:868-895 | copied before the release, the path source is exactly the URI the response carried |
| Portal.RegisteredSnoc | src/nfd_portal.cpp:686-709 | one more request acts on what the earlier ones left registered |
| Portal.Apply | src/nfd_portal.cpp:686-709 | reference definition: a successful `add_match` counts its rule once more, a `remove_match` once less, `OpenFile` changes nothing |
| Portal.Registered | src/nfd_portal.cpp:686-709 | reference definition: the registrations after a log, from nothing, applied from the first to the last request |
| Portal.ApplyAll | src/nfd_portal.cpp:686-709 | reference definition: the requests applied in order to given registrations |
| Portal.Dropped | src/nfd_portal.cpp:682-684 | reference definition: the held rule, if any, counted once less |
| Portal.RegisteredConcat | src/nfd_portal.cpp:686-709 | requests made after a log act on what it left registered |
| Portal.ApplyAllConcat | src/nfd_portal.cpp:686-709 | applying two runs of requests is applying the first, then the second |
| Portal.DropHeld | src/nfd_portal.cpp:701-709 | removing the held rule leaves at most what was registered before the handler |
| Portal.AddHeld | src/nfd_portal.cpp:686-699 | adding a rule leaves at most the base and that rule |
| Portal.Backend.constructor | src/nfd_portal.cpp:782-797 | after `NFD_Init`, no error and nothing registered |
| Portal.Backend.GetError | src/nfd_portal.cpp:773-775 | no error exactly when `err_ptr` is null; otherwise the static message or the saved bus error's text |
| Portal.Backend.ClearError | src/nfd_portal.cpp:777-780 | afterwards no error is reported and the saved bus error is freed |
| Portal.Backend.SetError | src/nfd_portal.cpp:70-72 | `err_ptr` points to the message; nothing else changes |
| Portal.Backend.MoveBusError | src/nfd_portal.cpp:692-695 | the new bus error replaces the saved one and `err_ptr` points to its message |
| Portal.Backend.Record | src/nfd_portal.cpp:691 | a request is appended to the log and applied to the registrations; nothing else changes |
| Portal.Backend.OpenDialog | src/nfd_portal.cpp:810-902 | returns `Dialog(bus)`'s status and, on success, a fresh NUL-terminated path; asks of the bus exactly `DialogCalls`; the registrations become those requests applied to the old ones, stay the fold of the log, and hold no new rule; an error is readable through `GetError`; otherwise the error slot is unchanged, except after a failed re-subscription |
| Portal.Backend.Run | src/nfd_portal.cpp:823-897 | the same, from the subscription on, for the predicted handle; the registrations become `Released(Requested(...))` of the old ones |
| Portal.Backend.Request | src/nfd_portal.cpp:823-855 | subscribes to the rule for the handle, which stays held even on failure; then the `OpenFile` call and the reply check, with the result `ReplyPath(bus)`; the rule is registered once more exactly when adding it succeeded |
| Portal.Backend.SendQuery | src/nfd_portal.cpp:830-855 | the `OpenFile` call with `QueryParams`; the reply's object path or the error that ends the call |
| Portal.Backend.Resume | src/nfd_portal.cpp:857-897 | after the reply: the optional move of the subscription, the wait and the release of the rule, with the log extended by `ReleaseCalls` and the registrations by `Released` |
| Portal.Backend.Rebind | src/nfd_portal.cpp:859-864 | the subscription moves to the reply's path only when it differs from the handle: the old rule is removed and the new one added if that succeeds; a failure is saved as the bus error and otherwise ignored |
| Portal.Backend.Await | src/nfd_portal.cpp:866-897 | ends as `Finish(Wait(...))`: cancel or error as the response said, no reply on a close, and the URI turned into a fresh path |
| Portal.PredictHandle | src/nfd_portal.cpp:814-815 | the handle path and the token that `MakeUniqueObjectPath` returns |
| Portal.ReplyPath | src/nfd_portal.cpp:823-860 | reference definition: the failed first `add_match`, the failed call, a reply without arguments or without an object path, each with its message, or the reply's object path |
| Portal.Finish | src/nfd_portal.cpp:878-897 | reference definition: cancel or error as the response said, no reply on a close, the URI's path or the not-a-file-URI error |
| Portal.Dialog | src/nfd_portal.cpp:810-902 | reference definition: the status and path of the call, or still blocked in the wait |
| Portal.RequestCalls | src/nfd_portal.cpp:823-836 | reference definition: the `add_match` of the rule, then, unless it failed, the `OpenFile` call |
| Portal.Rebound | src/nfd_portal.cpp:859-864 | reference definition: the removal of the old rule and the addition of the new one, when the reply names another object |
| Portal.ReleaseCalls | src/nfd_portal.cpp:857-897 | reference definition: the optional move, then the destructor's removal of the rule held |
| Portal.CallsFrom | src/nfd_portal.cpp:823-897 | reference definition: the requests up to the reply, then those after it |
| Portal.DialogCalls | src/nfd_portal.cpp:810-902 | reference definition: `CallsFrom` for the predicted handle and token |
| Portal.Requested | src/nfd_portal.cpp:823-836 | reference definition: the handle's rule counted once more unless its `add_match` failed |
| Portal.Released | src/nfd_portal.cpp:857-897 | reference definition: the handle's rule counted once less, and, after a move, the new rule added if that succeeded and then removed |
| Portal.Backend.Conclude | src/nfd_portal.cpp:836-897 | after the reply check: a failure ends the call after the destructor's removal; a reply naming an object goes on to `Resume`; the log, the registrations and the error slot change as `ReleaseCalls` and `Released` say |
| Portal.Backend.AwaitReleased | src/nfd_portal.cpp:866-897 | the wait's result, then the destructor's removal of the held rule, which the registrations lose once |
| Portal.SubscriptionHandler.constructor | src/nfd_portal.cpp:681 | holds no rule |
| Portal.SubscriptionHandler.Subscribe | src/nfd_portal.cpp:686-699 | removes a held rule first, then holds and adds the rule for the new path; the registrations lose the held rule and gain the new one when adding succeeds; the rule stays held when adding fails, and the failure becomes the saved bus error |
| Portal.SubscriptionHandler.Register | src/nfd_portal.cpp:688-698 | holds the rule and asks the bus to add it; the registrations gain it exactly when that succeeds |
| Portal.SubscriptionHandler.Unsubscribe | src/nfd_portal.cpp:701-709 | removes the held rule, which the registrations lose once, and holds none; the removal's error is dropped and the error slot is unchanged |
| Portal.SubscriptionHandler.Release | src/nfd_portal.cpp:682-684 | unsubscribes only when a rule is held, so the registrations are `Dropped` by it; afterwards nothing registered is newer than the handler |
| Portal.RequestRegisters | src/nfd_portal.cpp:823-836 | up to the reply, the handle's rule is registered once more if and only if adding it succeeds |
| Portal.ReleaseUnregisters | src/nfd_portal.cpp:857-897 | after the reply, the handle's rule is removed, and so is the rule it was moved to |
| Portal.CallsFromApplied | src/nfd_portal.cpp:823-897 | applying the call's requests one by one gives `Released(Requested(...))` |
| Portal.NetLeavesNoRule | src/nfd_portal.cpp:823-897 | that net effect holds no rule that was not there before, and loses none when every `add_match` succeeds |
| Portal.AddThenRemove | src/nfd_portal.cpp:686-709 | adding a rule, whether or not that succeeds, then removing it leaves at most what was there, exactly that after a success |
| Portal.DialogLeavesNoRule | src/nfd_portal.cpp:810-902 | the call leaves at most the rules registered before it, and exactly those when every `add_match` succeeds |
| Portal.FailedAddRemovesEarlier | src/nfd_portal.cpp:686-699 | after a failed `add_match`, the destructor still removes one registration of that rule |
| Portal.PickedFileReturned | src/nfd_portal.cpp:810-902 | a reply and then a response with `file:///tmp/a.txt` returns OK and `/tmp/a.txt` |
| Portal.CancelReturned | src/nfd_portal.cpp:869-881 | a response with code 1 returns a cancel without a path |

## Left out

- libdbus is not modelled: marshalling, the byte layout behind `dbus_message_iter_*`, and what `add_match`, `remove_match` and `send_with_reply_and_block` do on the bus. Their inputs and outputs are value trees. The answers of `add_match` and of the `OpenFile` call are the `Bus` oracle.
- `Portal.Apply`: every `remove_match` is taken to succeed. The rule is counted once less, or stays absent if it was not registered. The C passes no error object and ignores the outcome (`src/nfd_portal.cpp:701-709`). A removal the bus refuses therefore leaves the rule registered. `OpenDialog`'s `registered <= old(registered)` and `DialogLeavesNoRule` rest on this assumption.
- Strings are sequences of Unicode characters; the C works on bytes (`char*`, `strlen`, the byte-wise `'.'` to `'_'`). For the ASCII unique names and object paths the bus hands out the two agree; multi-byte UTF-8 in filter names, patterns or URIs is one character per code point here.
- The blocking of `dbus_connection_read_write(..., -1)` is left out. The oracle lists what each wake delivers; when it runs out, the call is still blocked. `OpenDialog` requires that it is not (`!Dialog(bus).Blocked?`).
- `getrandom` is an oracle; `ValidTrace` is the shape of one terminating run of the generator loop.
- Allocation and freeing (`malloc`, `free`, `alloca`) and the RAII guards are not modelled. Buffers are fresh arrays or strings.
- The lifetime of messages is modelled only in `MessageLifetime` (the use-after-free row under Findings). `Correlation` and `Portal` keep the URI as a value, which is the copy taken before the message is released.
- libdbus's reaction to the filter encoder appending to the wrong iterator is not modelled. The pattern's `0` and string go to `filter_list_tuple_iter` instead of the pattern tuple, and the last pattern tuple is left unclosed. The model gives the containers the `a(sa(us))` shape their signatures declare.
- `Request.WalkableSpec`: the model requires specs that the walk reads without stepping over the terminator, which is undefined in C. The condition is exact (`Request.WalkableFrom`). It excludes the empty spec and specs such as `"png,"` whose last comma is a stop (`Request.OverreadSpecs`). It admits `","` and `"png,,"` (`Request.TrailingCommaPiece`). A C string holds no NUL, so neither does a spec.
- `FileUri.AllocAndCopyFilePath` requires a URI without `'\0'`, as a C string is; `Await` passes the C string of what the response carried.
- `NFD_Init` and `NFD_Quit` are left out. `Backend`'s constructor is the state after a successful `NFD_Init`.
- `NFD_FreePathN` is left out, as freeing is not modelled.
- The `defaultPath` parameter is left out; it is unused.
- The commented-out GTK backend and the multi-select, save and folder flows are not live code.
- Concurrent calls are not modelled; one call is in flight at a time.
- `Portal.Backend.OpenDialog` models `Multiple = false` only, as `NFD_OpenDialogN` instantiates it. `Request.AppendOpenFileQueryParams` covers both values.

## Findings

| source | as written | input that shows it | evidently intended | confidence | as-written member | corrected member |
|---|---|---|---|---|---|---|
| src/nfd_portal.cpp:158-162 | every piece before the last is copied into an `alloca` buffer of `len + 1` bytes without writing the terminator, so libdbus reads on through stale bytes | spec `"png,jpg"` with a buffer that held `"x"`: the first pattern is `"pngx"` | each piece is NUL-terminated, so the patterns are the walk's pieces | not executed | Request.AllocaPieceOverreads | Request.FilterPatterns |
| src/nfd_portal.cpp:868-895 | `file` points into the `Response` message, which `msg_guard` releases when the inner loop's turn ends; `AllocAndCopyFIlePath` then reads through `file`, a use after free | any `Response` with `uris` `["file:///a"]`: the copy reads the released message | the URI is copied, or the message kept referenced, until `AllocAndCopyFIlePath` has read it | not executed | MessageLifetime.CopyReadsReleased | MessageLifetime.CopyBeforeReleaseKeepsUri |
| src/nfd_portal.cpp:254-256, 284-298 | `ReadResponseParamsSingle`'s comment promises that `file` is untouched on cancel or error, but a dict error after the `uris` handler ran returns `NFD_ERROR` with `file` already set | results `{"uris": ["file:///a"]}` followed by an entry without a string key | `file` stays as the caller passed it whenever the status is not OK | not executed | Response.ErrorAfterUrisSetsFile | Response.DecodeResponseDocumented |

In `NFD_OpenDialogN` the two decoders of the `ReadResponseParamsSingle` row agree: a status other than OK ends the wait before `file` is looked at. `Correlation.Wait` uses only the status of a non-OK response, and on it `DecodeResponse` and `DecodeResponseDocumented` agree.

/** The arguments of the `OpenFile` method call (`AppendOpenFileQueryParams`
    and the `AppendOpenFileQueryDictEntry*` helpers): the parent window
    `""`, the title `"Open File"` and an `a{sv}` of options holding
    `handle_token`, optionally `multiple`, and `filters` when there are
    filters. Each filter is a `(sa(us))` tuple of its name and its patterns;
    a pattern is kind `0` (a glob) with one comma-separated piece of the
    filter's spec. */
module Request {
  import opened Strings
  import opened DBusValues

  /** One `nfdnfilteritem_t`: a display name and a comma-separated list
      of extensions such as `"png,jpg"`. */
  datatype FilterItem = FilterItem(name: string, spec: string)

  /** The character `*(spec + k)` read from the C string
      `spec`: its terminator sits at `|spec|`. */
  function At(spec: string, k: nat): char
    requires k <= |spec|
  {
    if k < |spec| then spec[k] else '\0'
  }

  /** The walk from `begin` on reads nothing past the terminator: each turn
      of the outer loop starts before the terminator (the `do`-loop steps
      once before it compares), and the turns go on until a stop at the
      terminator. A turn starts at the terminator for the empty spec, and
      after a comma that ends the spec as a stop (`"png,"`); a trailing
      comma that begins a piece is read like any other character
      (`"png,,"`). */
  predicate WalkableFrom(spec: string, begin: nat)
    requires '\0' !in spec
    decreases |spec| - begin
  {
    begin < |spec| &&
    (Stop(spec, begin + 1) == |spec| || WalkableFrom(spec, Stop(spec, begin + 1) + 1))
  }

  /** A spec the comma walk reads without running past its terminator. A C
      string holds no NUL, and neither does the spec. */
  predicate WalkableSpec(spec: string)
  {
    '\0' !in spec && WalkableFrom(spec, 0)
  }

  /** A non-empty spec whose last character is not a comma can be walked
      from any of its positions. */
  lemma {:induction false} EndsInPieceWalkable(spec: string, begin: nat)
    requires '\0' !in spec && begin < |spec| && spec[|spec| - 1] != ','
    ensures WalkableFrom(spec, begin)
    decreases |spec| - begin
  {
    var e := Stop(spec, begin + 1);
    if e < |spec| {
      EndsInPieceWalkable(spec, e + 1);
    }
  }

  /** A spec may end in a comma when that comma begins the last piece:
      `","` gives the one piece `","`, and `"png,,"` gives `"png"` and
      `","`. */
  lemma TrailingCommaPiece()
    ensures WalkableSpec(",") && Segments(",") == [","]
    ensures WalkableSpec("png,,") && Segments("png,,") == ["png", ","]
  {
    assert Stop(",", 1) == 1;
    assert Stop("png,,", 1) == 3;
    assert Stop("png,,", 5) == 5;
    assert WalkableFrom("png,,", 4);
    assert Walk("png,,", 4) == [","];
    assert "png,,"[0..3] == "png";
  }

  /** For the empty spec, and for `"png,"`, a turn starts at the
      terminator and the `do`-loop steps over it. */
  lemma OverreadSpecs()
    ensures !WalkableSpec("") && !WalkableSpec("png,")
  {
    assert Stop("png,", 1) == 3;
  }

  /** No comma before the stop. */
  lemma {:induction false} StopSkipsNoComma(spec: string, k: nat)
    requires k <= |spec| && '\0' !in spec
    ensures forall i :: k <= i < Stop(spec, k) ==> spec[i] != ','
    decreases |spec| - k
  {
    if !(At(spec, k) == ',' || At(spec, k) == '\0') {
      StopSkipsNoComma(spec, k + 1);
    }
  }

  /** Where the `do`-loop stops when it starts from `k`: the first comma or
      the terminator at or after `k`. */
  function Stop(spec: string, k: nat): (e: nat)
    requires k <= |spec| && '\0' !in spec
    ensures k <= e <= |spec|
    ensures e == |spec| || spec[e] == ','
    decreases |spec| - k
  {
    if At(spec, k) == ',' || At(spec, k) == '\0' then k else Stop(spec, k + 1)
  }

  /** The pieces the walk hands out from `begin` on, as the code does it: a
      piece ends at the first comma after its first character, so a piece
      may begin with a comma (the character at `extn_begin` is never
      compared). */
  function Walk(spec: string, begin: nat): (r: seq<string>)
    requires '\0' !in spec && WalkableFrom(spec, begin)
    ensures |r| > 0
    decreases |spec| - begin
  {
    var e := Stop(spec, begin + 1);
    if e == |spec| then [spec[begin..]] else [spec[begin..e]] + Walk(spec, e + 1)
  }

  /** The pieces of a whole spec. */
  function Segments(spec: string): seq<string>
    requires WalkableSpec(spec)
  {
    Walk(spec, 0)
  }

  /** A spec with no empty segment: no comma at either end and no two
      adjacent commas. */
  predicate NoEmptySegment(s: string)
  {
    |s| > 0 && s[0] != ',' && s[|s| - 1] != ',' &&
    forall i :: 0 <= i < |s| - 1 ==> !(s[i] == ',' && s[i + 1] == ',')
  }

  /** The walk loses and invents nothing: its pieces joined with commas
      give back the spec, whatever the spec. */
  lemma {:induction false} WalkJoin(spec: string, begin: nat)
    requires '\0' !in spec && WalkableFrom(spec, begin)
    ensures Join(Walk(spec, begin), ',') == spec[begin..]
    decreases |spec| - begin
  {
    var e := Stop(spec, begin + 1);
    WalkStep(spec, begin, e);
    if e < |spec| {
      WalkJoin(spec, e + 1);
      var rest := Walk(spec, e + 1);
      assert Walk(spec, begin) == [spec[begin..e]] + rest;
      assert ([spec[begin..e]] + rest)[1..] == rest;
      assert spec[begin..] == spec[begin..e] + [','] + spec[e + 1..];
    }
  }

  /** With no empty segment, the walk is exactly splitting at the commas:
      the patterns are the comma-separated segments, in order. */
  lemma WalkIsSplit(spec: string, begin: nat)
    requires '\0' !in spec && WalkableFrom(spec, begin)
    requires NoEmptySegment(spec[begin..])
    ensures Walk(spec, begin) == Split(spec[begin..], ',')
  {
    WalkPiecesCommaFree(spec, begin);
    WalkJoin(spec, begin);
    SplitJoin(Walk(spec, begin), ',');
  }

  /** With no empty segment, no piece of the walk holds a comma. */
  lemma {:induction false} WalkPiecesCommaFree(spec: string, begin: nat)
    requires '\0' !in spec && WalkableFrom(spec, begin)
    requires NoEmptySegment(spec[begin..])
    ensures forall k :: 0 <= k < |Walk(spec, begin)| ==> ',' !in Walk(spec, begin)[k]
    decreases |spec| - begin
  {
    var e := Stop(spec, begin + 1);
    WalkStep(spec, begin, e);
    FirstPieceCommaFree(spec, begin);
    if e == |spec| {
      assert spec[begin..] == spec[begin..e];
    } else {
      TailNoEmptySegment(spec, begin, e);
      WalkPiecesCommaFree(spec, e + 1);
      var w, rest := Walk(spec, begin), Walk(spec, e + 1);
      assert forall k :: 1 <= k < |w| ==> w[k] == rest[k - 1];
    }
  }

  /** With no empty segment, the first piece the walk takes holds no
      comma. */
  lemma FirstPieceCommaFree(spec: string, begin: nat)
    requires '\0' !in spec && begin < |spec| && NoEmptySegment(spec[begin..])
    ensures ',' !in spec[begin..Stop(spec, begin + 1)]
  {
    assert spec[begin] != ',' by { assert spec[begin..][0] == spec[begin]; }
    StopSkipsNoComma(spec, begin + 1);
  }

  /** Past a comma, what is left of a spec with no empty segment has none
      either. */
  lemma TailNoEmptySegment(spec: string, begin: nat, e: nat)
    requires begin < e < |spec| && spec[e] == ','
    requires NoEmptySegment(spec[begin..])
    ensures e + 1 < |spec| && NoEmptySegment(spec[e + 1..])
    ensures spec[begin..] == spec[begin..e] + [','] + spec[e + 1..]
  {
    var tail := spec[e + 1..];
    assert spec[begin..][|spec| - 1 - begin] == spec[|spec| - 1];
    assert e + 1 < |spec|;
    assert spec[e + 1] != ',' by {
      assert spec[begin..][e - begin] == ',' && spec[begin..][e - begin + 1] == spec[e + 1];
    }
    assert NoEmptySegment(tail) by {
      assert tail[0] == spec[e + 1];
      assert tail[|tail| - 1] == spec[|spec| - 1];
      forall i | 0 <= i < |tail| - 1 ensures !(tail[i] == ',' && tail[i + 1] == ',') {
        assert tail[i] == spec[begin..][e + 1 + i - begin];
        assert tail[i + 1] == spec[begin..][e + 2 + i - begin];
      }
    }
    assert spec[begin..] == spec[begin..e] + [','] + tail;
  }

  /** A leading comma stays on the first piece: `",png"` gives the one
      pattern `",png"`, where splitting would give `""` and `"png"`. */
  lemma LeadingCommaKept()
    ensures Segments(",png") == [",png"]
  {
    assert Stop(",png", 1) == 4;
  }

  /** The pattern tuple `(us)` for one piece: kind `0`, a glob. */
  function Pattern(piece: string): Value
  {
    Struct([U32(0), Str(piece)])
  }

  /** The patterns of a list of pieces, in order. */
  function Patterns(pieces: seq<string>): (r: seq<Value>)
    ensures |r| == |pieces|
  {
    if pieces == [] then [] else [Pattern(pieces[0])] + Patterns(pieces[1..])
  }

  /** The comma walk over one spec (the `while (true)` loop with its inner
      `do`-loop): the patterns of the spec's pieces, in order. */
  method FilterPatterns(spec: string) returns (patterns: seq<Value>)
    requires WalkableSpec(spec)
    ensures patterns == Patterns(Segments(spec))
  {
    var begin: nat := 0;
    var end: nat := 0;
    patterns := [];
    ghost var done: seq<string> := [];
    ghost var all := Segments(spec);
    while true
      invariant WalkableFrom(spec, begin) && end == begin
      invariant all == done + Walk(spec, begin)
      invariant patterns == Patterns(done)
      decreases |spec| - begin
    {
      var piece, last;
      end, piece, last := NextPiece(spec, begin);
      PatternsSnoc(done, piece);
      patterns := patterns + [Pattern(piece)];
      if last {
        done := done + [piece];
        break;
      }
      Advance(all, done, Walk(spec, begin), piece, Walk(spec, end + 1));
      done := done + [piece];
      begin := end + 1;
      end := begin;
    }
  }

  lemma Advance(all: seq<string>, done: seq<string>, w: seq<string>, piece: string, w': seq<string>)
    requires all == done + w && w == [piece] + w'
    ensures all == (done + [piece]) + w'
  {
  }

  /** One turn of the outer loop: scan to the next stop and take the piece
      from `extn_begin` up to it (to the terminator on the last turn). */
  method NextPiece(spec: string, begin: nat) returns (end: nat, piece: string, last: bool)
    requires '\0' !in spec && WalkableFrom(spec, begin)
    ensures end == Stop(spec, begin + 1)
    ensures last <==> end == |spec|
    ensures last ==> Walk(spec, begin) == [piece]
    ensures !last ==> end + 1 < |spec| && WalkableFrom(spec, end + 1)
    ensures !last ==> Walk(spec, begin) == [piece] + Walk(spec, end + 1)
  {
    end := ScanSegment(spec, begin);
    last := At(spec, end) == '\0';
    if last {
      piece := spec[begin..];
    } else {
      piece := spec[begin..end];
    }
  }

  lemma {:induction false} PatternsSnoc(pieces: seq<string>, piece: string)
    ensures Patterns(pieces + [piece]) == Patterns(pieces) + [Pattern(piece)]
  {
    if pieces != [] {
      assert (pieces + [piece])[1..] == pieces[1..] + [piece];
      PatternsSnoc(pieces[1..], piece);
    }
  }

  /** The inner `do`-loop: from `extn_end`, step at least once and stop at
      the next comma or the terminator. */
  method ScanSegment(spec: string, start: nat) returns (end: nat)
    requires start < |spec| && '\0' !in spec
    ensures end == Stop(spec, start + 1)
  {
    end := start;
    end := end + 1;
    while At(spec, end) != ',' && At(spec, end) != '\0'
      invariant start < end <= |spec|
      invariant Stop(spec, end) == Stop(spec, start + 1)
      decreases |spec| - end
    {
      end := end + 1;
    }
  }

  /** One turn of the walk: the piece up to the next stop, then the rest. */
  lemma WalkStep(spec: string, begin: nat, e: nat)
    requires '\0' !in spec && WalkableFrom(spec, begin) && e == Stop(spec, begin + 1)
    ensures e == |spec| ==> Walk(spec, begin) == [spec[begin..]]
    ensures e < |spec| ==> e + 1 < |spec| && WalkableFrom(spec, e + 1)
    ensures e < |spec| ==> Walk(spec, begin) == [spec[begin..e]] + Walk(spec, e + 1)
  {
  }

  lemma {:induction false} PatternsAt(pieces: seq<string>)
    ensures forall i :: 0 <= i < |pieces| ==> Patterns(pieces)[i] == Pattern(pieces[i])
  {
    if pieces != [] {
      PatternsAt(pieces[1..]);
      assert forall i :: 1 <= i < |pieces| ==> pieces[i] == pieces[1..][i - 1];
    }
  }

  /** Every filter's spec can be walked. */
  predicate WalkableFilters(filters: seq<FilterItem>)
  {
    forall i :: 0 <= i < |filters| ==> WalkableSpec(filters[i].spec)
  }

  /** The `(sa(us))` tuple of one filter: its name and its patterns. */
  function FilterTuple(f: FilterItem): Value
    requires WalkableSpec(f.spec)
  {
    Struct([Str(f.name), Array("(us)", Patterns(Segments(f.spec)))])
  }

  /** The tuples of the filters, in order. */
  function FilterTuples(filters: seq<FilterItem>): (r: seq<Value>)
    requires WalkableFilters(filters)
    ensures |r| == |filters|
  {
    if filters == [] then [] else [FilterTuple(filters[0])] + FilterTuples(filters[1..])
  }

  /** The loop over `filterList` in `AppendOpenFileQueryDictEntryFilters`. */
  method AppendFilters(filters: seq<FilterItem>) returns (tuples: seq<Value>)
    requires WalkableFilters(filters)
    ensures tuples == FilterTuples(filters)
  {
    tuples := [];
    var i := 0;
    while i != |filters|
      invariant 0 <= i <= |filters|
      invariant tuples == FilterTuples(filters[..i])
    {
      var patterns := FilterPatterns(filters[i].spec);
      FilterTuplesSnoc(filters[..i], filters[i]);
      assert filters[..i + 1] == filters[..i] + [filters[i]];
      tuples := tuples + [Struct([Str(filters[i].name), Array("(us)", patterns)])];
      i := i + 1;
    }
    assert filters[..i] == filters;
  }

  lemma {:induction false} FilterTuplesSnoc(filters: seq<FilterItem>, f: FilterItem)
    requires WalkableFilters(filters) && WalkableSpec(f.spec)
    ensures WalkableFilters(filters + [f])
    ensures FilterTuples(filters + [f]) == FilterTuples(filters) + [FilterTuple(f)]
  {
    assert forall i :: 0 <= i < |filters| ==> (filters + [f])[i] == filters[i];
    if filters != [] {
      assert (filters + [f])[1..] == filters[1..] + [f];
      FilterTuplesSnoc(filters[1..], f);
    }
  }

  lemma {:induction false} FilterTuplesAt(filters: seq<FilterItem>)
    requires WalkableFilters(filters)
    ensures forall i :: 0 <= i < |filters| ==> FilterTuples(filters)[i] == FilterTuple(filters[i])
  {
    if filters != [] {
      FilterTuplesAt(filters[1..]);
      assert forall i :: 1 <= i < |filters| ==> filters[i] == filters[1..][i - 1];
    }
  }

  const STR_EMPTY: string := ""
  const STR_OPEN_FILE: string := "Open File"
  const STR_HANDLE_TOKEN: string := "handle_token"
  const STR_MULTIPLE: string := "multiple"
  const STR_FILTERS: string := "filters"

  /** `AppendOpenFileQueryDictEntryHandleToken`. */
  function HandleTokenEntry(token: string): Value
  {
    DictEntry([Str(STR_HANDLE_TOKEN), Variant("s", Str(token))])
  }

  /** `AppendOpenFileQueryDictEntryMultiple<true>`. */
  function MultipleEntry(): Value
  {
    DictEntry([Str(STR_MULTIPLE), Variant("b", Bool(true))])
  }

  /** `AppendOpenFileQueryDictEntryFilters`, with the shape its containers
      declare. */
  function FiltersEntry(filters: seq<FilterItem>): Value
    requires WalkableFilters(filters)
  {
    DictEntry([Str(STR_FILTERS), Variant("a(sa(us))", Array("(sa(us))", FilterTuples(filters)))])
  }

  /** The options dictionary, entry by entry. */
  function Options(token: string, multiple: bool, filters: seq<FilterItem>): seq<Value>
    requires WalkableFilters(filters)
  {
    [HandleTokenEntry(token)]
      + (if multiple then [MultipleEntry()] else [])
      + (if |filters| != 0 then [FiltersEntry(filters)] else [])
  }

  /** The three arguments of `OpenFile`. */
  function QueryParams(token: string, multiple: bool, filters: seq<FilterItem>): seq<Value>
    requires WalkableFilters(filters)
  {
    [Str(STR_EMPTY), Str(STR_OPEN_FILE), Array("{sv}", Options(token, multiple, filters))]
  }

  /** `AppendOpenFileQueryParams<Multiple>`: the arguments appended to the
      query, in order. */
  method AppendOpenFileQueryParams(multiple: bool, token: string, filters: seq<FilterItem>)
    returns (args: seq<Value>)
    requires WalkableFilters(filters)
    ensures args == QueryParams(token, multiple, filters)
  {
    args := [];
    args := args + [Str(STR_EMPTY)];
    args := args + [Str(STR_OPEN_FILE)];
    var entries := [];
    entries := entries + [DictEntry([Str(STR_HANDLE_TOKEN), Variant("s", Str(token))])];
    if multiple {
      entries := entries + [DictEntry([Str(STR_MULTIPLE), Variant("b", Bool(true))])];
    }
    ghost var upToMultiple := entries;
    assert upToMultiple == [HandleTokenEntry(token)] + (if multiple then [MultipleEntry()] else []);
    if |filters| != 0 {
      var tuples := AppendFilters(filters);
      entries := entries + [DictEntry([Str(STR_FILTERS), Variant("a(sa(us))", Array("(sa(us))", tuples))])];
    }
    assert entries == upToMultiple + (if |filters| != 0 then [FiltersEntry(filters)] else []);
    args := args + [Array("{sv}", entries)];
  }

  /** The key of a dictionary entry whose key is a string (`""` otherwise). */
  function EntryKey(v: Value): string
  {
    if v.DictEntry? && |v.fields| > 0 && v.fields[0].Str? then v.fields[0].s else ""
  }

  /** The keys of a list of entries. */
  function Keys(entries: seq<Value>): (r: seq<string>)
    ensures |r| == |entries|
    ensures forall i :: 0 <= i < |entries| ==> r[i] == EntryKey(entries[i])
  {
    if entries == [] then [] else [EntryKey(entries[0])] + Keys(entries[1..])
  }

  /** The arguments come in the order `""`, `"Open File"`, options; the
      options are an `a{sv}` whose first entry is always `handle_token`,
      holding the token as a string variant. */
  lemma QueryOrder(token: string, multiple: bool, filters: seq<FilterItem>)
    requires WalkableFilters(filters)
    ensures var args := QueryParams(token, multiple, filters);
      |args| == 3 && args[0] == Str("") && args[1] == Str("Open File") &&
      args[2].Array? && args[2].elemSig == "{sv}" && |args[2].elems| > 0 &&
      args[2].elems[0] == DictEntry([Str("handle_token"), Variant("s", Str(token))])
  {
  }

  /** `multiple` is among the keys exactly when the `Multiple` template
      argument is true, and `filters` exactly when there are filters;
      `handle_token` is always there, and no key appears twice. */
  lemma QueryKeys(token: string, multiple: bool, filters: seq<FilterItem>)
    requires WalkableFilters(filters)
    ensures var keys := Keys(Options(token, multiple, filters));
      keys[0] == "handle_token" &&
      ("multiple" in keys <==> multiple) &&
      ("filters" in keys <==> |filters| != 0) &&
      forall i, j :: 0 <= i < j < |keys| ==> keys[i] != keys[j]
  {
    var opts := Options(token, multiple, filters);
    var keys := Keys(opts);
    assert forall i :: 0 <= i < |opts| ==> keys[i] == EntryKey(opts[i]);
    if multiple && |filters| != 0 {
      assert keys == ["handle_token", "multiple", "filters"];
    } else if multiple {
      assert keys == ["handle_token", "multiple"];
    } else if |filters| != 0 {
      assert keys == ["handle_token", "filters"];
    } else {
      assert keys == ["handle_token"];
    }
  }

  /** For a spec with no empty segment, the filter's patterns are exactly
      its comma-separated segments, in order, each with kind `0`. */
  lemma FilterPatternsAreSegments(f: FilterItem)
    requires '\0' !in f.spec && NoEmptySegment(f.spec)
    ensures WalkableSpec(f.spec) && FilterTuple(f).fields[1].elems == Patterns(Split(f.spec, ','))
  {
    EndsInPieceWalkable(f.spec, 0);
    WalkIsSplit(f.spec, 0);
    assert f.spec[0..] == f.spec;
  }

  lemma PatternTyped(piece: string)
    ensures Sig(Pattern(piece)) == "(us)" && WellTyped(Pattern(piece))
  {
    var fs := [U32(0), Str(piece)];
    SigListPair(fs[0], fs[1]);
    assert AllWellTyped(fs) by {
      AllWellTypedAt(fs);
    }
  }

  lemma FilterTupleTyped(f: FilterItem)
    requires WalkableSpec(f.spec)
    ensures Sig(FilterTuple(f)) == "(sa(us))" && WellTyped(FilterTuple(f))
  {
    var pats := Patterns(Segments(f.spec));
    PatternsAt(Segments(f.spec));
    forall i | 0 <= i < |pats| ensures Sig(pats[i]) == "(us)" && WellTyped(pats[i]) {
      PatternTyped(Segments(f.spec)[i]);
    }
    AllWellTypedAt(pats);
    var fs := [Str(f.name), Array("(us)", pats)];
    SigListPair(fs[0], fs[1]);
    AllWellTypedAt(fs);
  }

  lemma FiltersEntryTyped(filters: seq<FilterItem>)
    requires WalkableFilters(filters)
    ensures Sig(FiltersEntry(filters)) == "{sv}" && WellTyped(FiltersEntry(filters))
  {
    var tuples := FilterTuples(filters);
    FilterTuplesAt(filters);
    forall i | 0 <= i < |tuples| ensures Sig(tuples[i]) == "(sa(us))" && WellTyped(tuples[i]) {
      FilterTupleTyped(filters[i]);
    }
    AllWellTypedAt(tuples);
    var list := Array("(sa(us))", tuples);
    assert Sig(list) == "a(sa(us))";
    var fs := [Str(STR_FILTERS), Variant("a(sa(us))", list)];
    SigListPair(fs[0], fs[1]);
    AllWellTypedAt(fs);
  }

  lemma EntryTyped(key: string, sig: string, inner: Value)
    requires Sig(inner) == sig && WellTyped(inner)
    ensures Sig(DictEntry([Str(key), Variant(sig, inner)])) == "{sv}"
    ensures WellTyped(DictEntry([Str(key), Variant(sig, inner)]))
  {
    var fs := [Str(key), Variant(sig, inner)];
    SigListPair(fs[0], fs[1]);
    AllWellTypedAt(fs);
  }

  lemma OptionsTyped(token: string, multiple: bool, filters: seq<FilterItem>)
    requires WalkableFilters(filters)
    ensures forall i :: 0 <= i < |Options(token, multiple, filters)| ==>
      Sig(Options(token, multiple, filters)[i]) == "{sv}"
    ensures AllWellTyped(Options(token, multiple, filters))
  {
    var opts := Options(token, multiple, filters);
    EntryTyped(STR_HANDLE_TOKEN, "s", Str(token));
    EntryTyped(STR_MULTIPLE, "b", Bool(true));
    if |filters| != 0 {
      FiltersEntryTyped(filters);
    }
    assert forall i :: 0 <= i < |opts| ==> Sig(opts[i]) == "{sv}" && WellTyped(opts[i]);
    AllWellTypedAt(opts);
  }

  /** The arguments are well typed: every container holds what its
      signature declares, and the method's argument signature is
      `ssa{sv}`. */
  lemma QueryWellTyped(token: string, multiple: bool, filters: seq<FilterItem>)
    requires WalkableFilters(filters)
    ensures AllWellTyped(QueryParams(token, multiple, filters))
    ensures SigList(QueryParams(token, multiple, filters)) == "ssa{sv}"
  {
    var opts := Options(token, multiple, filters);
    OptionsTyped(token, multiple, filters);
    var args := QueryParams(token, multiple, filters);
    assert WellTyped(args[2]);
    AllWellTypedAt(args);
    assert args[1..] == [Str(STR_OPEN_FILE), Array("{sv}", opts)];
    SigListPair(args[1], args[2]);
  }

  /** What libdbus reads for a piece copied into the `alloca` buffer before
      the last one, as the code is written: `copy` writes the piece's
      characters but no terminator, so the string runs on through whatever
      the buffer held before (`stale`) up to the first NUL there. */
  function AllocaPiece(piece: string, stale: string): string
    requires '\0' in stale
  {
    piece + stale[..IndexOf(stale, '\0')]
  }

  /** The piece comes out right exactly when the byte after it happens to
      be NUL already. */
  lemma AllocaPieceExact(piece: string, stale: string)
    requires '\0' in stale
    ensures AllocaPiece(piece, stale) == piece <==> stale[0] == '\0'
  {
    var n := IndexOf(stale, '\0');
    if AllocaPiece(piece, stale) == piece {
      assert |stale[..n]| == 0;
    }
  }

  /** For the spec `"png,jpg"`, a buffer that held `"x"` before turns the
      first pattern into `"pngx"`. */
  lemma AllocaPieceOverreads()
    ensures AllocaPiece("png", "x\0") == "pngx"
    ensures Segments("png,jpg") == ["png", "jpg"]
  {
    assert IndexOf("x\0", '\0') == 1;
    var s := "png,jpg";
    assert Stop(s, 1) == 3;
    assert Stop(s, 5) == 7;
    assert s[4..] == "jpg" && s[0..3] == "png";
    assert Walk(s, 4) == ["jpg"];
    assert Walk(s, 0) == [s[0..3]] + Walk(s, 4);
  }
}

/** Endpoint discovery of src/scraper.rs: finding the Next.js build id in the homepage
    markup (`extract_build_id_from_html`) and falling back to the built-in id
    (`discover_build_id`, and the start of `run_scraper`). */
module BuildId {
  import opened Wrappers
  import opened Json
  import opened Text

  const DEFAULT_BUILD_ID: string := "keyXdCWmEdmqkd-AH927v"
  const NEXT_DATA_MARKER: string := "__NEXT_DATA__"
  const SCRIPT_END: string := "</script>"
  const STATIC_PREFIX: string := "/_next/static/"
  /** Build ids are longer than this many characters. */
  const MIN_BUILD_ID_LEN: nat := 10

  /** `serde_json::from_str`, a parser outside the model: the JSON value a text denotes, if any. */
  type JsonParser = string -> Option<Json>

  /** A path segment accepted as a build id: not a `chunks`, `css` or `media` directory,
      and longer than ten characters. */
  predicate IsBuildIdCandidate(seg: string) {
    && !StartsWith(seg, "chunks")
    && !StartsWith(seg, "css")
    && !StartsWith(seg, "media")
    && |seg| > MIN_BUILD_ID_LEN
  }

  // ---------------------------------------------------------------- __NEXT_DATA__

  /** The first branch: the text from the first '{' after `__NEXT_DATA__` up to the next
      `</script>`, parsed as JSON, and its string member `buildId`. */
  function NextDataBuildId(html: string, parseJson: JsonParser): Option<string> {
    match FindFrom(html, NEXT_DATA_MARKER, 0)
    case None => None
    case Some(start) =>
      match FindFrom(html, "{", start)
      case None => None
      case Some(dataStart) =>
        match FindFrom(html, SCRIPT_END, dataStart)
        case None => None
        case Some(end) =>
          match parseJson(html[dataStart..end])
          case None => None
          case Some(doc) => StrAt(doc, "buildId")
  }

  /** With `__NEXT_DATA__` first at `start`, the first '{' after it at `dataStart` and the
      first `</script>` after that at `end`: a string `buildId` in the parse of the text
      between them is the answer; a text that does not parse, or a document without a
      string `buildId`, hands over to the `/_next/static/` scan. */
  lemma NextDataRule(html: string, parseJson: JsonParser, start: nat, dataStart: nat, end: nat)
    requires OccursAt(html, NEXT_DATA_MARKER, start)
    requires forall i :: 0 <= i < start ==> !OccursAt(html, NEXT_DATA_MARKER, i)
    requires start <= dataStart && OccursAt(html, "{", dataStart)
    requires forall i :: start <= i < dataStart ==> !OccursAt(html, "{", i)
    requires dataStart <= end && OccursAt(html, SCRIPT_END, end)
    requires forall i :: dataStart <= i < end ==> !OccursAt(html, SCRIPT_END, i)
    ensures var doc := parseJson(html[dataStart..end]);
            doc.Some? && StrAt(doc.value, "buildId").Some? ==>
              ExtractBuildId(html, parseJson) == StrAt(doc.value, "buildId")
    ensures var doc := parseJson(html[dataStart..end]);
            doc.None? || StrAt(doc.value, "buildId").None? ==>
              ExtractBuildId(html, parseJson) == ScanFrom(html, 0)
  {
    FindFromFirst(html, NEXT_DATA_MARKER, 0, start);
    FindFromFirst(html, "{", start, dataStart);
    FindFromFirst(html, SCRIPT_END, dataStart, end);
  }

  /** A page without `__NEXT_DATA__` goes straight to the scan. */
  lemma NoNextDataMarker(html: string, parseJson: JsonParser)
    requires forall i :: !OccursAt(html, NEXT_DATA_MARKER, i)
    ensures ExtractBuildId(html, parseJson) == ScanFrom(html, 0)
  {
    assert FindFrom(html, NEXT_DATA_MARKER, 0).None?;
  }

  /** So does a page whose first `__NEXT_DATA__` is not followed by a '{', or whose '{'
      is not followed by a `</script>`. */
  lemma UnterminatedNextData(html: string, parseJson: JsonParser, start: nat, dataStart: nat)
    requires OccursAt(html, NEXT_DATA_MARKER, start)
    requires forall i :: 0 <= i < start ==> !OccursAt(html, NEXT_DATA_MARKER, i)
    requires (forall i :: start <= i ==> !OccursAt(html, "{", i)) ||
             (start <= dataStart && OccursAt(html, "{", dataStart) &&
              (forall i :: start <= i < dataStart ==> !OccursAt(html, "{", i)) &&
              (forall i :: dataStart <= i ==> !OccursAt(html, SCRIPT_END, i)))
    ensures ExtractBuildId(html, parseJson) == ScanFrom(html, 0)
  {
    FindFromFirst(html, NEXT_DATA_MARKER, 0, start);
    if !(forall i :: start <= i ==> !OccursAt(html, "{", i)) {
      FindFromFirst(html, "{", start, dataStart);
    }
  }

  // ---------------------------------------------------------------- /_next/static/ scan

  /** The segment after a `/_next/static/` at `p`, up to the next '/', if there is one. */
  function SegmentAfter(html: string, p: nat): (r: Option<string>)
    requires OccursAt(html, STATIC_PREFIX, p)
    ensures r.Some? ==> '/' !in r.value
  {
    var start := p + |STATIC_PREFIX|;
    match FindFrom(html, "/", start)
    case None => None
    case Some(slash) =>
      assert forall i :: start <= i < slash ==> html[i] != '/' by {
        forall i | start <= i < slash ensures html[i] != '/' {
          assert !OccursAt(html, "/", i);
        }
      }
      var seg := html[start..slash];
      assert forall k :: 0 <= k < |seg| ==> seg[k] == html[start + k];
      Some(seg)
  }

  /** One round of the scan's loop: it stops, accepts a segment, or goes on from a
      later position. */
  datatype Round = Stop | Accept(seg: string) | Skip(next: nat)

  /** A round as written: look for `/_next/static/` from `from`; take the segment up to
      the next '/'; accept it, or carry on searching FROM THAT '/'. No prefix, or no '/'
      after it, stops the scan. */
  function ScanRound(html: string, from: nat): (r: Round)
    requires from <= |html|
    ensures r.Accept? ==> IsBuildIdCandidate(r.seg)
    ensures r.Skip? ==> from < r.next <= |html|
  {
    match FindFrom(html, STATIC_PREFIX, from)
    case None => Stop
    case Some(p) =>
      var start := p + |STATIC_PREFIX|;
      match FindFrom(html, "/", start)
      case None => Stop
      case Some(slash) =>
        var seg := html[start..slash];
        if IsBuildIdCandidate(seg) then Accept(seg) else Skip(slash)
  }

  /** The scan: rounds from `from` until one stops or accepts. */
  function ScanFrom(html: string, from: nat): (r: Option<string>)
    requires from <= |html|
    ensures r.Some? ==> IsBuildIdCandidate(r.value)
    decreases |html| - from
  {
    match ScanRound(html, from)
    case Stop => None
    case Accept(seg) => Some(seg)
    case Skip(next) => ScanFrom(html, next)
  }

  /** Soundness: what the scan returns is the whole segment after some `/_next/static/`
      at or after the start, so it holds no '/'. */
  lemma {:induction false} ScanFromSound(html: string, from: nat)
    requires from <= |html|
    ensures var r := ScanFrom(html, from);
            r.Some? ==> exists p :: from <= p && OccursAt(html, STATIC_PREFIX, p) && SegmentAfter(html, p) == r
    ensures ScanFrom(html, from).Some? ==> '/' !in ScanFrom(html, from).value
    decreases |html| - from
  {
    var found := FindFrom(html, STATIC_PREFIX, from);
    if found.Some? {
      var q := found.value;
      if q + |STATIC_PREFIX| <= |html| {
        var next := FindFrom(html, "/", q + |STATIC_PREFIX|);
        if next.Some? {
          var seg := html[q + |STATIC_PREFIX|..next.value];
          if IsBuildIdCandidate(seg) {
            ScanAccepts(html, from, q, next.value);
            assert SegmentAfter(html, q) == Some(seg);
          } else {
            ScanSkips(html, from, q, next.value);
            ScanFromSound(html, next.value);
          }
        } else {
          ScanEnds(html, from);
        }
      } else {
        ScanEnds(html, from);
      }
    } else {
      ScanEnds(html, from);
    }
  }

  /** `extract_build_id_from_html`, as a value: the `__NEXT_DATA__` answer, else the scan's. */
  function ExtractBuildId(html: string, parseJson: JsonParser): Option<string> {
    match NextDataBuildId(html, parseJson)
    case Some(id) => Some(id)
    case None => ScanFrom(html, 0)
  }

  /** `extract_build_id_from_html`: the same search, with the scan as the source's loop. */
  method ExtractBuildIdFromHtml(html: string, parseJson: JsonParser) returns (r: Option<string>)
    ensures r == ExtractBuildId(html, parseJson)
  {
    var fromNextData := NextDataBuildId(html, parseJson);
    if fromNextData.Some? {
      return fromNextData;
    }
    var searchStart := 0;
    while true
      invariant searchStart <= |html|
      invariant ScanFrom(html, searchStart) == ScanFrom(html, 0)
      decreases |html| - searchStart
    {
      var prefixPos := FindFrom(html, STATIC_PREFIX, searchStart);
      if prefixPos.None? {
        ScanEnds(html, searchStart);
        break;
      }
      var startPos := prefixPos.value + |STATIC_PREFIX|;
      var slashPos := FindFrom(html, "/", startPos);
      if slashPos.None? {
        ScanEnds(html, searchStart);
        break;
      }
      var buildId := html[startPos..slashPos.value];
      if IsBuildIdCandidate(buildId) {
        ScanAccepts(html, searchStart, prefixPos.value, slashPos.value);
        return Some(buildId);
      }
      ScanSkips(html, searchStart, prefixPos.value, slashPos.value);
      searchStart := slashPos.value;
    }
    assert ScanFrom(html, 0).None?;
    return None;
  }

  // ---------------------------------------------------------------- what the scan finds

  /** The characters of a `/_next/static/` occurrence at `p`, one by one. */
  lemma PrefixChars(html: string, p: nat)
    requires OccursAt(html, STATIC_PREFIX, p)
    ensures forall i :: p <= i < p + |STATIC_PREFIX| ==> html[i] == STATIC_PREFIX[i - p]
  {
    forall i | p <= i < p + |STATIC_PREFIX| ensures html[i] == STATIC_PREFIX[i - p] {
      assert html[i] == html[p..p + |STATIC_PREFIX|][i - p];
    }
  }

  /** Two `/_next/static/` occurrences less than a prefix length apart are exactly 13
      apart: the second starts at the last '/' of the first. */
  lemma PrefixOverlap(html: string, p: nat, p': nat)
    requires OccursAt(html, STATIC_PREFIX, p) && OccursAt(html, STATIC_PREFIX, p')
    requires p < p' < p + |STATIC_PREFIX|
    ensures p' == p + 13
  {
    PrefixChars(html, p);
    PrefixChars(html, p');
    assert html[p'] == '/' && html[p' + 1] == '_';
  }

  /** Completeness: an acceptable segment after a `/_next/static/` at `p` is found (this
      one or an earlier one), unless that prefix begins on the closing '/' of another
      `/_next/static/`, 13 characters before it. */
  lemma {:induction false} ScanFindsCandidate(html: string, from: nat, p: nat)
    requires from <= p && OccursAt(html, STATIC_PREFIX, p)
    requires SegmentAfter(html, p).Some? && IsBuildIdCandidate(SegmentAfter(html, p).value)
    requires !(p >= 13 && OccursAt(html, STATIC_PREFIX, p - 13))
    ensures ScanFrom(html, from).Some?
    ensures exists q :: from <= q <= p && OccursAt(html, STATIC_PREFIX, q) && SegmentAfter(html, q) == ScanFrom(html, from)
    decreases |html| - from
  {
    var found := FindFrom(html, STATIC_PREFIX, from);
    assert found.Some? && found.value <= p;
    var q := found.value;
    var start := q + |STATIC_PREFIX|;
    if q == p {
      var slash := FindFrom(html, "/", start).value;
      ScanAccepts(html, from, q, slash);
      assert SegmentAfter(html, q) == ScanFrom(html, from);
    } else {
      if p < q + |STATIC_PREFIX| {
        PrefixOverlap(html, q, p);
        assert false;
      }
      SlashAtPrefix(html, p);
      var next := FindFrom(html, "/", start);
      assert next.Some? && next.value <= p;
      var slash := next.value;
      if IsBuildIdCandidate(html[start..slash]) {
        ScanAccepts(html, from, q, slash);
        assert SegmentAfter(html, q) == ScanFrom(html, from);
      } else {
        ScanSkips(html, from, q, slash);
        ScanFindsCandidate(html, slash, p);
        var q' :| slash <= q' <= p && OccursAt(html, STATIC_PREFIX, q') && SegmentAfter(html, q') == ScanFrom(html, slash);
        assert from <= q' <= p;
      }
    }
  }

  /** The scan ends empty when no prefix follows, or no '/' follows the first prefix. */
  lemma ScanEnds(html: string, from: nat)
    requires from <= |html|
    ensures FindFrom(html, STATIC_PREFIX, from).None? ==> ScanFrom(html, from).None?
    ensures var q := FindFrom(html, STATIC_PREFIX, from);
            q.Some? && FindFrom(html, "/", q.value + |STATIC_PREFIX|).None? ==> ScanFrom(html, from).None?
  {
  }

  /** One round of the scan that accepts the segment after the first prefix. */
  lemma ScanAccepts(html: string, from: nat, q: nat, slash: nat)
    requires from <= |html|
    requires FindFrom(html, STATIC_PREFIX, from) == Some(q)
    requires q + |STATIC_PREFIX| <= |html| && FindFrom(html, "/", q + |STATIC_PREFIX|) == Some(slash)
    requires IsBuildIdCandidate(html[q + |STATIC_PREFIX|..slash])
    ensures ScanFrom(html, from) == Some(html[q + |STATIC_PREFIX|..slash])
  {
  }

  /** One round of the scan that rejects the segment after the first prefix and carries
      on from the '/' that ends it. */
  lemma ScanSkips(html: string, from: nat, q: nat, slash: nat)
    requires from <= |html|
    requires FindFrom(html, STATIC_PREFIX, from) == Some(q)
    requires q + |STATIC_PREFIX| <= |html| && FindFrom(html, "/", q + |STATIC_PREFIX|) == Some(slash)
    requires !IsBuildIdCandidate(html[q + |STATIC_PREFIX|..slash])
    ensures ScanFrom(html, from) == ScanFrom(html, slash)
  {
  }

  /** A `/_next/static/` occurrence begins with a '/'. */
  lemma SlashAtPrefix(html: string, p: nat)
    requires OccursAt(html, STATIC_PREFIX, p)
    ensures OccursAt(html, "/", p)
  {
    assert html[p..p + 1] == html[p..p + 14][..1];
  }

  /** A page whose only acceptable segment follows a prefix that starts on the closing
      '/' of another prefix: `/_next/static/_next/static/abcdefghijk/`. */
  const OVERLAP_HEAD: string := "/_next/static/_next/"
  const OVERLAP_SEGMENT: string := "abcdefghijk"
  const OVERLAP_TAIL: string := "static/" + OVERLAP_SEGMENT + "/"
  const OVERLAP_EXAMPLE: string := OVERLAP_HEAD + OVERLAP_TAIL

  lemma OverlapExampleFirstSegment()
    ensures FindFrom(OVERLAP_EXAMPLE, STATIC_PREFIX, 0) == Some(0)
    ensures FindFrom(OVERLAP_EXAMPLE, "/", 14) == Some(19)
    ensures OVERLAP_EXAMPLE[14..19] == "_next"
  {
    var html := OVERLAP_EXAMPLE;
    assert html[..20] == OVERLAP_HEAD;
    assert html[0..14] == OVERLAP_HEAD[0..14] == STATIC_PREFIX;
    assert OccursAt(html, STATIC_PREFIX, 0);
    assert html[14..19] == OVERLAP_HEAD[14..19] == "_next";
    assert OccursAt(html, "/", 19) by { assert html[19..20] == [OVERLAP_HEAD[19]]; }
    forall i | 14 <= i < 19 ensures !OccursAt(html, "/", i) {
      assert html[i..i + 1][0] == OVERLAP_HEAD[i];
    }
  }

  lemma OverlapExampleTail()
    ensures forall j :: 20 <= j < |OVERLAP_EXAMPLE| ==> OVERLAP_EXAMPLE[j] != '_'
  {
    var html := OVERLAP_EXAMPLE;
    var tail := html[20..];
    assert tail == OVERLAP_TAIL;
    assert '_' !in tail;
    forall j | 20 <= j < |html| ensures html[j] != '_' {
      assert html[j] == tail[j - 20];
    }
  }

  lemma OverlapExampleNoLaterPrefix()
    ensures FindFrom(OVERLAP_EXAMPLE, STATIC_PREFIX, 19).None?
  {
    var html := OVERLAP_EXAMPLE;
    OverlapExampleTail();
    forall i | 19 <= i ensures !OccursAt(html, STATIC_PREFIX, i) {
      if i + 14 <= |html| {
        assert html[i..i + 14][1] == html[i + 1] != '_';
      }
    }
  }

  lemma OverlapExampleSecondPrefix()
    ensures OccursAt(OVERLAP_EXAMPLE, STATIC_PREFIX, 13)
  {
    var html := OVERLAP_EXAMPLE;
    assert html[13..20] == OVERLAP_HEAD[13..] == "/_next/";
    assert html[20..27] == OVERLAP_TAIL[..7] == "static/";
    assert html[13..27] == html[13..20] + html[20..27];
    assert STATIC_PREFIX[..7] == "/_next/" && STATIC_PREFIX[7..] == "static/";
    assert STATIC_PREFIX == STATIC_PREFIX[..7] + STATIC_PREFIX[7..];
  }

  lemma OverlapExampleSkippedSegment()
    ensures OccursAt(OVERLAP_EXAMPLE, STATIC_PREFIX, 13)
    ensures SegmentAfter(OVERLAP_EXAMPLE, 13) == Some(OVERLAP_SEGMENT)
  {
    OverlapExampleSecondPrefix();
    var html := OVERLAP_EXAMPLE;
    assert html[20..] == OVERLAP_TAIL;
    assert html[27..38] == OVERLAP_TAIL[7..18] == OVERLAP_SEGMENT;
    assert OccursAt(html, "/", 38) by { assert html[38..39] == [OVERLAP_TAIL[18]]; }
    forall i | 27 <= i < 38 ensures !OccursAt(html, "/", i) {
      assert html[i..i + 1][0] == OVERLAP_SEGMENT[i - 27];
    }
    assert FindFrom(html, "/", 27) == Some(38);
  }

  lemma OverlapExampleSegmentAcceptable()
    ensures IsBuildIdCandidate(OVERLAP_SEGMENT)
  {
    var seg := OVERLAP_SEGMENT;
    assert seg[..6][0] == seg[..3][0] == seg[..5][0] == 'a';
  }

  /** The scan skips a prefix that starts on the closing '/' of another: on this page the
      only acceptable segment is missed and nothing is found. */
  lemma OverlappedPrefixIsSkipped()
    ensures OccursAt(OVERLAP_EXAMPLE, STATIC_PREFIX, 13)
    ensures SegmentAfter(OVERLAP_EXAMPLE, 13) == Some(OVERLAP_SEGMENT)
    ensures IsBuildIdCandidate(OVERLAP_SEGMENT)
    ensures ScanFrom(OVERLAP_EXAMPLE, 0).None?
  {
    OverlapExampleSkippedSegment();
    OverlapExampleSegmentAcceptable();
    OverlapExampleFirstSegment();
    assert !IsBuildIdCandidate(OVERLAP_EXAMPLE[14..19]);
    ScanSkips(OVERLAP_EXAMPLE, 0, 0, 19);
    OverlapExampleNoLaterPrefix();
    ScanEnds(OVERLAP_EXAMPLE, 19);
  }

  // ---------------------------------------------------------------- discovery

  datatype DiscoveryError = HomepageUnavailable

  /** `discover_build_id`: fetching the homepage can fail (None); a fetched page always
      gives an id, the extracted one or the default. */
  function DiscoverBuildId(homepage: Option<string>, parseJson: JsonParser): (r: Result<string, DiscoveryError>)
    ensures r.Failure? <==> homepage.None?
    ensures homepage.Some? && ExtractBuildId(homepage.value, parseJson).Some? ==>
              r == Success(ExtractBuildId(homepage.value, parseJson).value)
    ensures homepage.Some? && ExtractBuildId(homepage.value, parseJson).None? ==>
              r == Success(DEFAULT_BUILD_ID)
  {
    match homepage
    case None => Failure(HomepageUnavailable)
    case Some(html) =>
      match ExtractBuildId(html, parseJson)
      case Some(id) => Success(id)
      case None => Success(DEFAULT_BUILD_ID)
  }

  /** The id `run_scraper` uses for its whole life: discovery never fails the caller. */
  function StartupBuildId(homepage: Option<string>, parseJson: JsonParser): (id: string)
    ensures homepage.Some? && ExtractBuildId(homepage.value, parseJson).Some? ==>
              id == ExtractBuildId(homepage.value, parseJson).value
    ensures homepage.Some? && ExtractBuildId(homepage.value, parseJson).None? ==> id == DEFAULT_BUILD_ID
    ensures homepage.None? ==> id == DEFAULT_BUILD_ID
  {
    match DiscoverBuildId(homepage, parseJson)
    case Success(id) => id
    case Failure(_) => DEFAULT_BUILD_ID
  }

  /** Without a `__NEXT_DATA__` answer, a discovered id that is not the default is an
      acceptable `/_next/static/` segment without '/'. */
  lemma StaticIdShape(html: string, parseJson: JsonParser)
    requires NextDataBuildId(html, parseJson).None?
    ensures var id := StartupBuildId(Some(html), parseJson);
            id == DEFAULT_BUILD_ID || (IsBuildIdCandidate(id) && '/' !in id)
  {
    ScanFromSound(html, 0);
  }
}

/** The review page for a finished game: where a question's picture is looked up, the
  * image cache, the fallback addresses tried when a picture fails to load, moving
  * between the questions, the map centre and the recomputed score. */
module Review {
  import opened Common
  import opened Scoring
  import SoloGame
  import Uri

  const PICUI_PREFIX := "https://picui.cn/i/"
  const FALLBACK_IMAGES := "https://picui.cn/images/"
  const FALLBACK_API := "https://picui.cn/api/v1/images/"
  const FALLBACK_API_SUFFIX := "/raw"
  const DEFAULT_LAT: real := 22.351484
  const DEFAULT_LNG: real := 113.583680

  /** `resolveImageUrl(raw)`: a full address is kept; a stored key is placed under the
    * image host's public path. */
  function ResolveImageUrl(raw: string): (r: string)
    ensures raw == "" ==> r == ""
    ensures raw != "" && StartsWith(raw, "http") ==> r == raw
    ensures raw != "" && !StartsWith(raw, "http") ==>
              StartsWith(r, PICUI_PREFIX) && r[|PICUI_PREFIX|..] == Uri.Encode(Uri.Component, raw)
  {
    if raw == "" then ""
    else if StartsWith(raw, "http") then raw
    else
      var r := PICUI_PREFIX + Uri.Encode(Uri.Component, raw);
      assert r[..|PICUI_PREFIX|] == PICUI_PREFIX;
      r
  }

  /** The key is recoverable from a resolved address, and distinct keys give distinct
    * addresses. */
  lemma ResolvedKeyRoundTrip(raw: string, other: string)
    requires raw != "" && !StartsWith(raw, "http")
    ensures Uri.Decode(Uri.Component, ResolveImageUrl(raw)[|PICUI_PREFIX|..]) == Some(raw)
    ensures other != "" && !StartsWith(other, "http") && other != raw ==>
              ResolveImageUrl(other) != ResolveImageUrl(raw)
  {
    Uri.DecodeEncode(Uri.Component, raw);
    if other != "" && !StartsWith(other, "http") && other != raw {
      Uri.DecodeEncode(Uri.Component, other);
      var a, b := ResolveImageUrl(other), ResolveImageUrl(raw);
      assert Uri.Decode(Uri.Component, a[|PICUI_PREFIX|..]) == Some(other);
      assert Uri.Decode(Uri.Component, b[|PICUI_PREFIX|..]) == Some(raw);
    }
  }

  // ---------------------------------------------------------------------
  // Moving between questions

  /** "Previous": enabled above index 0, it moves to `max(0, i - 1)`. */
  predicate PrevEnabled(i: int) { !(i <= 0) }

  function Prev(i: int): (r: int)
    ensures r >= 0
    ensures PrevEnabled(i) ==> r == i - 1
  {
    if i - 1 > 0 then i - 1 else 0
  }

  /** The last usable index: one less than the number of questions, read as 1 while the
    * record is not loaded. */
  function LastIndex(count: Option<nat>): int {
    (if count.Some? then count.value else 1) - 1
  }

  /** "Next": enabled below the last index, it moves to `min(last, i + 1)`. */
  predicate NextEnabled(i: int, count: Option<nat>) { !(i >= LastIndex(count)) }

  function Next(i: int, count: Option<nat>): (r: int)
    ensures r <= LastIndex(count)
    ensures NextEnabled(i, count) ==> r == i + 1
  {
    if LastIndex(count) < i + 1 then LastIndex(count) else i + 1
  }

  /** From any index within the questions, the enabled buttons keep it within them. */
  lemma NavigationStaysInRange(i: int, n: nat)
    requires 0 <= i < n
    ensures PrevEnabled(i) ==> 0 <= Prev(i) < n
    ensures NextEnabled(i, Some(n)) ==> 0 <= Next(i, Some(n)) < n
    ensures !NextEnabled(i, Some(n)) <==> i == n - 1
  {
  }

  // ---------------------------------------------------------------------
  // Map and score

  /** `mapCenter`: the answer, else the user's guess, else a fixed point on campus. */
  function MapCenter(correct: Option<SoloGame.Coord>, user: Option<SoloGame.Coord>): (r: (Option<real>, Option<real>))
    ensures correct.Some? ==> r == (correct.value.lat, correct.value.lon)
    ensures correct.None? && user.Some? ==> r == (user.value.lat, user.value.lon)
    ensures correct.None? && user.None? ==> r == (Some(DEFAULT_LAT), Some(DEFAULT_LNG))
  {
    if correct.Some? then (correct.value.lat, correct.value.lon)
    else if user.Some? then (user.value.lat, user.value.lon)
    else (Some(DEFAULT_LAT), Some(DEFAULT_LNG))
  }

  /** Where a marker sits on the map: `[c.lat, c.lng]` of a shown coordinate. */
  function MarkerAt(c: SoloGame.Coord): (Option<real>, Option<real>) {
    (c.lat, c.lon)
  }

  /** The map opens on a marker whenever one is shown, on the answer's marker whenever
    * there is one (in particular whenever a distance and score are shown), and on the
    * fixed campus point when no marker is shown; when no shown marker itself sits on
    * that point, the map opens there only when no marker is shown. */
  lemma CenterOnMarker(correct: Option<SoloGame.Coord>, user: Option<SoloGame.Coord>, meters: Meters)
    ensures ReviewScore(correct, user, meters).meters.Some? ==> MapCenter(correct, user) == MarkerAt(correct.value)
    ensures correct.None? && user.Some? ==> MapCenter(correct, user) == MarkerAt(user.value)
    ensures correct.None? && user.None? ==>
              MapCenter(correct, user) == MarkerAt(SoloGame.Coord(Some(DEFAULT_LAT), Some(DEFAULT_LNG)))
    ensures MapCenter(correct, user) == MarkerAt(SoloGame.Coord(Some(DEFAULT_LAT), Some(DEFAULT_LNG)))
            && (correct.None? || MarkerAt(correct.value) != (Some(DEFAULT_LAT), Some(DEFAULT_LNG)))
            && (user.None? || MarkerAt(user.value) != (Some(DEFAULT_LAT), Some(DEFAULT_LNG))) ==>
              correct.None? && user.None?
  {
    if ReviewScore(correct, user, meters).meters.Some? {
      assert correct.Some? && user.Some?;
    }
  }

  /** `distAndScore`: no distance and 0 unless both points exist; otherwise the same
    * rule as the practice page. */
  function ReviewScore(correct: Option<SoloGame.Coord>, user: Option<SoloGame.Coord>, meters: Meters): (r: SoloGame.Scored)
    ensures correct.None? || user.None? ==> r == SoloGame.Scored(None, 0)
    ensures correct.Some? && user.Some? ==> r == SoloGame.DistanceAndScore(correct, meters)
  {
    if correct.None? || user.None? then SoloGame.Scored(None, 0)
    else SoloGame.DistanceAndScore(correct, meters)
  }

  /** The review recomputes the practice page's score: with a complete answer and a
    * guess, the score is the practice score for that distance, within [0, 100]. */
  lemma ReviewMatchesPractice(correct: Option<SoloGame.Coord>, user: Option<SoloGame.Coord>, meters: Meters)
    requires SoloGame.HasCoord(correct) && user.Some?
    ensures ReviewScore(correct, user, meters).score == DecayScore(SoloGame.MAX_SCORE, SoloGame.RADIUS, meters)
    ensures 0 <= ReviewScore(correct, user, meters).score <= 100
    ensures ReviewScore(correct, user, meters).meters == Some(meters)
  {
  }

  // ---------------------------------------------------------------------
  // Fallback addresses

  /** The index of the last '/' in `s` at or after `lo`, if any. */
  function LastSlashFrom(s: string, lo: nat, j: nat): (r: Option<nat>)
    requires lo <= j <= |s|
    ensures r.Some? ==> lo <= r.value < j && s[r.value] == '/'
    ensures r.Some? ==> forall k :: r.value < k < j ==> s[k] != '/'
    ensures r.None? ==> forall k :: lo <= k < j ==> s[k] != '/'
    decreases j
  {
    if j == lo then None
    else if s[j - 1] == '/' then Some(j - 1)
    else LastSlashFrom(s, lo, j - 1)
  }

  /** The characters a regular expression's `.` does not match. */
  predicate LineTerminator(c: char) {
    c == '\n' || c == '\r' || c == '\U{2028}' || c == '\U{2029}'
  }

  /** The index of the first line terminator at or after `i`, or the length. */
  function LineEnd(s: string, i: nat): (e: nat)
    requires i <= |s|
    ensures i <= e <= |s| && forall j :: i <= j < e ==> !LineTerminator(s[j])
    ensures e < |s| ==> LineTerminator(s[e])
    decreases |s| - i
  {
    if i == |s| || LineTerminator(s[i]) then i else LineEnd(s, i + 1)
  }

  /** The length of the `https?://` prefix the pattern's start matches, or 0. */
  function SchemeLength(raw: string): (p: nat)
    ensures StartsWith(raw, "http://") ==> p == 7
    ensures StartsWith(raw, "https://") ==> p == 8
    ensures !StartsWith(raw, "http://") && !StartsWith(raw, "https://") ==> p == 0
    ensures p <= |raw|
  {
    if StartsWith(raw, "http://") then
      assert raw[4] == "http://"[4];
      7
    else if StartsWith(raw, "https://") then 8
    else 0
  }

  /** `raw.replace(/^https?:\/\/.*\//, '')`: after an http(s) scheme, drop everything up
    * to the last '/' that follows it on the same line, since `.` stops at a line
    * terminator; any other text is kept. */
  function StripToKey(raw: string): (key: string)
    ensures |key| <= |raw|
    ensures !StartsWith(raw, "http://") && !StartsWith(raw, "https://") ==> key == raw
  {
    var p := SchemeLength(raw);
    if p == 0 then raw
    else
      match LastSlashFrom(raw, p, LineEnd(raw, p))
      case None => raw
      case Some(k) => raw[k + 1..]
  }

  /** For an http or https address, with `p` the scheme's length and `e` the end of the
    * first line: the key is the text after the last '/' between `p` and `e`, and the
    * whole address when there is no '/' there. */
  lemma StripToKeyDropsPath(raw: string)
    requires StartsWith(raw, "http://") || StartsWith(raw, "https://")
    ensures var p := SchemeLength(raw);
            var e := LineEnd(raw, p);
            forall k :: p <= k < e && raw[k] == '/' && (forall j :: k < j < e ==> raw[j] != '/') ==>
              StripToKey(raw) == raw[k + 1..]
    ensures var p := SchemeLength(raw);
            (forall k :: p <= k < LineEnd(raw, p) ==> raw[k] != '/') ==> StripToKey(raw) == raw
  {
    var p := SchemeLength(raw);
    var e := LineEnd(raw, p);
    forall k | p <= k < e && raw[k] == '/' && (forall j :: k < j < e ==> raw[j] != '/')
      ensures StripToKey(raw) == raw[k + 1..]
    {
      var last := LastSlashFrom(raw, p, e);
      assert last.Some?;
      assert last.value == k;
    }
  }

  /** On a one-line address with a '/' after its scheme, the key holds no '/'. */
  lemma OneLineKeyHasNoSlash(raw: string)
    requires SchemeLength(raw) > 0 && LineEnd(raw, SchemeLength(raw)) == |raw|
    requires exists k :: SchemeLength(raw) <= k < |raw| && raw[k] == '/'
    ensures forall i :: 0 <= i < |StripToKey(raw)| ==> StripToKey(raw)[i] != '/'
  {
    var last := LastSlashFrom(raw, SchemeLength(raw), |raw|);
    assert last.Some?;
    var key := raw[last.value + 1..];
    assert StripToKey(raw) == key;
    forall i | 0 <= i < |key| ensures key[i] != '/' {
      assert key[i] == raw[last.value + 1 + i];
    }
  }

  /** A line terminator ends what the pattern's `.*` can span: this address has a '/'
    * only on its second line and is kept whole. */
  lemma NewlineStopsStrip()
    ensures StripToKey("https://a\n/b") == "https://a\n/b"
  {
    var raw := "https://a\n/b";
    assert raw[4] == 's';
    assert SchemeLength(raw) == 8;
    assert LineEnd(raw, 9) == 9;
    assert LineEnd(raw, 8) == 9;
    assert raw[8] != '/';
  }

  function Fallbacks(raw: string): seq<string> {
    FallbacksFor(Uri.Encode(Uri.Component, StripToKey(raw)))
  }

  /** The two fallback addresses of an encoded key; they differ at index 17. */
  function FallbacksFor(key: string): (r: seq<string>)
    ensures |r| == 2 && r[0] != r[1]
  {
    var r := [FALLBACK_IMAGES + key, FALLBACK_API + key + FALLBACK_API_SUFFIX];
    assert r[0][17] == 'i' && r[1][17] == 'a';
    r
  }

  predicate Usable(u: string, current: string) {
    u != current && !Contains(u, "undefined")
  }

  /** The index of the first usable address at or after `i`. */
  function FirstUsableFrom(us: seq<string>, current: string, i: nat): (r: Option<nat>)
    requires i <= |us|
    ensures r.Some? ==> i <= r.value < |us| && Usable(us[r.value], current)
    ensures r.Some? ==> forall j :: i <= j < r.value ==> !Usable(us[j], current)
    ensures r.None? ==> forall j :: i <= j < |us| ==> !Usable(us[j], current)
    decreases |us| - i
  {
    if i == |us| then None
    else if Usable(us[i], current) then Some(i)
    else FirstUsableFrom(us, current, i + 1)
  }

  /** `fallbacks.find(u => u !== current && !u.includes('undefined'))`. */
  function FindUsable(us: seq<string>, current: string): (r: Option<string>)
    ensures r.Some? ==> exists i :: 0 <= i < |us| && us[i] == r.value && Usable(us[i], current)
                                   && forall j :: 0 <= j < i ==> !Usable(us[j], current)
    ensures r.None? <==> forall i :: 0 <= i < |us| ==> !Usable(us[i], current)
  {
    match FirstUsableFrom(us, current, 0)
    case None => None
    case Some(i) => Some(us[i])
  }

  /** What `onError` does to the image source: nothing without a stored address,
    * otherwise the first usable fallback, or null when neither is usable. */
  datatype SrcChange = Keep | SetSrc(src: Option<string>)

  function OnErrorChange(raw: string, current: string): (r: SrcChange)
    ensures raw == "" ==> r == Keep
    ensures raw != "" ==> r == SetSrc(FindUsable(Fallbacks(raw), current))
    ensures r.SetSrc? && r.src.Some? ==> Usable(r.src.value, current)
    ensures raw != "" && Usable(Fallbacks(raw)[0], current) ==> r == SetSrc(Some(Fallbacks(raw)[0]))
  {
    if raw == "" then Keep else SetSrc(FindUsable(Fallbacks(raw), current))
  }

  /** A failed fallback is never tried again at once: the two fallbacks differ, so after
    * the first fails the second is chosen, and after the second fails the first. */
  lemma FallbacksAlternate(raw: string)
    requires raw != ""
    requires forall i :: 0 <= i < 2 ==> !Contains(Fallbacks(raw)[i], "undefined")
    ensures OnErrorChange(raw, Fallbacks(raw)[0]) == SetSrc(Some(Fallbacks(raw)[1]))
    ensures OnErrorChange(raw, Fallbacks(raw)[1]) == SetSrc(Some(Fallbacks(raw)[0]))
  {
    var fs := Fallbacks(raw);
    assert fs[0] != fs[1];
  }

  // ---------------------------------------------------------------------
  // The page's image cache

  /** A question's id is usable when present and non-zero (`if (!qId)`). */
  predicate IdPresent(qId: Option<int>) { qId.Some? && qId.value != 0 }

  // ---------------------------------------------------------------------
  // Loading the record

  const MSG_RECORD_FAILED := "记录加载失败"

  /** `state.userId ?? userInfo?.userId`: the router's id unless it is missing. */
  function UserIdOf(stateUserId: Option<int>, storedUserId: Option<int>): (r: Option<int>)
    ensures stateUserId.Some? ==> r == stateUserId
    ensures stateUserId.None? ==> r == storedUserId
  {
    if stateUserId.Some? then stateUserId else storedUserId
  }

  /** The outcome of the mount effect; `outcome` is how the awaited record request ended. */
  datatype RecordView<D> = WentBack | Loaded(detail: D) | LoadFailed(message: string)

  function LoadRecord<D>(userId: Option<int>, recordId: Option<int>, outcome: Result<D, string>): (r: RecordView<D>)
    ensures r.WentBack? <==> !IdPresent(userId) || !IdPresent(recordId)
    ensures r.Loaded? <==> IdPresent(userId) && IdPresent(recordId) && outcome.Ok?
    ensures r.Loaded? ==> outcome == Ok(r.detail)
    ensures r.LoadFailed? ==> outcome.Err? && r.message == (if outcome.error != "" then outcome.error else MSG_RECORD_FAILED)
  {
    if !IdPresent(userId) || !IdPresent(recordId) then WentBack
    else match outcome
      case Ok(d) => Loaded(d)
      case Err(e) => LoadFailed(if e != "" then e else MSG_RECORD_FAILED)
  }

  /** A router id of 0 is kept by `??` and then sends the page back, even when a user is
    * stored; only a missing router id falls back to the stored one. */
  lemma ZeroRouterIdGoesBack<D>(storedUserId: Option<int>, recordId: Option<int>, outcome: Result<D, string>)
    ensures UserIdOf(Some(0), storedUserId) == Some(0)
    ensures LoadRecord(UserIdOf(Some(0), storedUserId), recordId, outcome) == WentBack
    ensures IdPresent(storedUserId) && IdPresent(recordId) && outcome.Ok? ==>
              LoadRecord(UserIdOf(None, storedUserId), recordId, outcome) == Loaded(outcome.value)
  {
  }

  class ImageLoader {
    /** `questionImageCache`, keyed by question id. */
    var cache: map<int, string>
    var imageSrc: Option<string>
    var fetches: seq<int>

    constructor ()
      ensures cache == map[] && imageSrc == Some("") && fetches == []
    {
      cache, imageSrc, fetches := map[], Some(""), [];
    }

    /** The effect on the current question's id: a truthy cached address is reused
      * without a request; otherwise the question is fetched, and both a success and a
      * failure store the address they settle on. `detailUrl` is how the request ended:
      * the detail's own image address, or an error. */
    method Show(qId: Option<int>, rawImageUrl: string, detailUrl: Result<string, string>)
      modifies this`cache, this`imageSrc, this`fetches
      ensures !IdPresent(qId) ==> imageSrc == Some("") && cache == old(cache) && fetches == old(fetches)
      ensures IdPresent(qId) && qId.value in old(cache) && old(cache)[qId.value] != "" ==>
                imageSrc == Some(old(cache)[qId.value]) && cache == old(cache) && fetches == old(fetches)
      ensures IdPresent(qId) && !(qId.value in old(cache) && old(cache)[qId.value] != "") ==>
                var url := if detailUrl.Ok? && detailUrl.value != "" then detailUrl.value
                           else ResolveImageUrl(rawImageUrl);
                fetches == old(fetches) + [qId.value] && cache == old(cache)[qId.value := url]
                && imageSrc == Some(url)
    {
      if !IdPresent(qId) {
        imageSrc := Some("");
        return;
      }
      var id := qId.value;
      if id in cache && cache[id] != "" {
        imageSrc := Some(cache[id]);
        return;
      }
      fetches := fetches + [id];
      var url;
      if detailUrl.Ok? && detailUrl.value != "" {
        url := detailUrl.value;
      } else {
        url := ResolveImageUrl(rawImageUrl);
      }
      cache := cache[id := url];
      imageSrc := Some(url);
    }

    /** The image element's `onError`. */
    method OnImageError(raw: string, current: string)
      modifies this`imageSrc
      ensures OnErrorChange(raw, current) == Keep ==> imageSrc == old(imageSrc)
      ensures OnErrorChange(raw, current).SetSrc? ==> imageSrc == OnErrorChange(raw, current).src
    {
      var change := OnErrorChange(raw, current);
      if change.SetSrc? {
        imageSrc := change.src;
      }
    }
  }

  /** Once a non-empty address is cached for a question, showing it again makes no
    * request: the second `Show` changes neither the cache nor the request list. */
  method ShowTwice(qId: int, raw: string, first: Result<string, string>, second: Result<string, string>)
      returns (fetchCount: nat, src: Option<string>)
    requires qId != 0
    requires first.Ok? && first.value != ""
    ensures fetchCount == 1 && src == Some(first.value)
  {
    var loader := new ImageLoader();
    loader.Show(Some(qId), raw, first);
    loader.Show(Some(qId), raw, second);
    fetchCount, src := |loader.fetches|, loader.imageSrc;
  }
}

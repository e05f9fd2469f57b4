/**
 * The `moz_places` side of utils/places.py: the URL helpers that the origin
 * trigger calls, and the values of the row that `maybe_insert_place` inserts.
 * `urllib.parse.urlparse` is a parameter `parse` that gives a URL's scheme and
 * netloc.  The table itself and the statements on it are in module Store.
 */
module Places {
  import opened Results
  import opened SqlText
  import UrlHash

  /** The two parts of `urlparse(url)` that the importer reads. */
  datatype UrlParts = UrlParts(scheme: string, netloc: string)

  const SCHEME_SEPARATOR := "://"
  const PLACE_SCHEME := "place"

  /** `get_prefix`: the scheme followed by "://", or "" for a URL without a scheme. */
  function GetPrefix(parse: string -> UrlParts, url: string): (r: string)
    ensures r == "" <==> parse(url).scheme == ""
    ensures r != "" ==> r == parse(url).scheme + SCHEME_SEPARATOR
  {
    var scheme := parse(url).scheme;
    if scheme != "" then scheme + SCHEME_SEPARATOR else ""
  }

  /** Two URLs have the same origin prefix exactly when they have the same scheme. */
  lemma PrefixDeterminesScheme(parse: string -> UrlParts, a: string, b: string)
    ensures GetPrefix(parse, a) == GetPrefix(parse, b) <==> parse(a).scheme == parse(b).scheme
  {
    var pa, pb := GetPrefix(parse, a), GetPrefix(parse, b);
    if pa == pb && pa != "" {
      assert parse(a).scheme == pa[..|pa| - 3] == parse(b).scheme;
    }
  }

  /**
   * `get_host_and_port`: the netloc.  `urlparse` gives "" rather than None when
   * there is none, so the `or ""` of the source changes nothing.
   */
  function GetHostAndPort(parse: string -> UrlParts, url: string): string
  {
    parse(url).netloc
  }

  /** `s[::-1]`. */
  function Reverse(s: string): (r: string)
    ensures |r| == |s|
    ensures forall i :: 0 <= i < |s| ==> r[i] == s[|s| - 1 - i]
  {
    if |s| == 0 then "" else Reverse(s[1..]) + [s[0]]
  }

  /** The `rev_host` of a new place: the netloc reversed, then ".", with the letters' case kept. */
  function RevHost(netloc: string): (r: string)
    ensures |r| == |netloc| + 1 && r[|netloc|] == '.'
    ensures forall i :: 0 <= i < |netloc| ==> r[i] == netloc[|netloc| - 1 - i]
  {
    Reverse(netloc) + "."
  }

  /** Different hosts get different `rev_host` values: nothing of the netloc is lost. */
  lemma RevHostInjective(a: string, b: string)
    requires RevHost(a) == RevHost(b)
    ensures a == b
  {
    assert |a| == |b|;
    forall i | 0 <= i < |a|
      ensures a[i] == b[i]
    {
      var j := |a| - 1 - i;
      assert RevHost(a)[j] == a[i] && RevHost(b)[j] == b[i];
    }
  }

  /** The frecency of a new place: 0 for a `place` scheme, -1 otherwise. */
  function InitialFrecency(scheme: string): (f: int)
    ensures f == 0 <==> scheme == PLACE_SCHEME
    ensures f == -1 <==> scheme != PLACE_SCHEME
  {
    if scheme == PLACE_SCHEME then 0 else -1
  }

  /**
   * The `hidden` column of a new place: `CASE WHEN url BETWEEN 'place:' AND
   * 'place:' || X'FFFF' THEN 1 ELSE 0 END`, which is 1 exactly for the URLs
   * that start with "place:".
   */
  function Hidden(url: string): (h: int)
    ensures h == 0 || h == 1
    ensures h == 1 <==> IsPrefix(PLACE_PREFIX, url)
  {
    InPlaceRangeIffPrefix(url);
    if InPlaceRange(url) then 1 else 0
  }

  /** A row of `moz_places`, with the columns the importer and its triggers read or write. */
  datatype Place = Place(
    id: int,
    url: string,
    urlHash: int,
    revHost: string,
    hidden: int,
    frecency: int,
    guid: string,
    foreignCount: int,
    recalcFrecency: int,
    recalcAltFrecency: int,
    originId: Option<int>)

  /** The id of a new `moz_places` row. */
  function NextPlaceId(places: seq<Place>): (r: int)
    ensures forall i :: 0 <= i < |places| ==> places[i].id < r
  {
    NextRowId(places, (p: Place) => p.id)
  }

  /** `WHERE url_hash = hash(:url) AND url = :url`. */
  function SameUrl(url: string): Place -> bool
  {
    (p: Place) => p.urlHash == UrlHash.HashOfUrl(url) && p.url == url
  }

  /**
   * `(SELECT guid FROM moz_places WHERE url_hash = hash(:url) AND url = :url)`:
   * the GUID of the first place with that URL, or NULL.
   */
  function GuidOfUrl(places: seq<Place>, url: string): (r: Option<string>)
    ensures r.None? <==> forall i :: 0 <= i < |places| ==> !(places[i].urlHash == UrlHash.HashOfUrl(url) && places[i].url == url)
    ensures r.Some? ==> exists i :: 0 <= i < |places| && places[i].urlHash == UrlHash.HashOfUrl(url) && places[i].url == url
                                  && places[i].guid == r.value
  {
    var k := FirstWhere(places, SameUrl(url));
    if k.None? then None else Some(places[k.value].guid)
  }

  /** Some place already has this GUID, so an INSERT OR IGNORE with it is ignored. */
  predicate GuidTaken(places: seq<Place>, guid: string)
  {
    exists i :: 0 <= i < |places| && places[i].guid == guid
  }

  /** The GUIDs of `moz_places` are unique, as the host schema's unique index on `guid` keeps them. */
  predicate GuidsUnique(places: seq<Place>)
  {
    forall i, j :: 0 <= i < j < |places| ==> places[i].guid != places[j].guid
  }

  /**
   * The row that `maybe_insert_place` inserts for `url` with the GUID `guid`;
   * the columns it does not name take the schema's defaults.
   */
  function NewPlace(places: seq<Place>, parse: string -> UrlParts, url: string, guid: string): (p: Place)
    ensures forall i :: 0 <= i < |places| ==> places[i].id < p.id
    ensures p.url == url && p.guid == guid && p.urlHash == UrlHash.HashOfUrl(url)
    ensures p.revHost == RevHost(parse(url).netloc)
    ensures p.hidden == (if IsPrefix(PLACE_PREFIX, url) then 1 else 0)
    ensures p.frecency == (if parse(url).scheme == PLACE_SCHEME then 0 else -1)
    ensures p.foreignCount == 0 && p.originId.None?
  {
    var parsed := parse(url);
    Place(NextPlaceId(places), url, UrlHash.HashOfUrl(url), RevHost(parsed.netloc), Hidden(url),
          InitialFrecency(parsed.scheme), guid, 0, 0, 0, None)
  }

  /** INSERT OR IGNORE: the row is appended unless its GUID is taken. */
  function InsertOrIgnore(places: seq<Place>, row: Place): (r: seq<Place>)
    ensures GuidTaken(places, row.guid) ==> r == places
    ensures !GuidTaken(places, row.guid) ==> r == places + [row]
    ensures GuidsUnique(places) ==> GuidsUnique(r)
  {
    if GuidTaken(places, row.guid) then places else places + [row]
  }

  /** `SELECT id FROM moz_places WHERE url = :url`. */
  function HasUrl(url: string): Place -> bool
  {
    (p: Place) => p.url == url
  }

  /** `fetch_place_id`: the id of the first place with the URL, or -1 when there is none. */
  function PlaceIdOf(places: seq<Place>, url: string): (id: int)
    ensures (forall i :: 0 <= i < |places| ==> places[i].url != url) ==> id == -1
    ensures (exists i :: 0 <= i < |places| && places[i].url == url) ==>
      exists i :: 0 <= i < |places| && places[i].url == url && places[i].id == id
  {
    var k := FirstWhere(places, HasUrl(url));
    if k.None? then -1 else places[k.value].id
  }

  /**
   * `(SELECT id FROM moz_places WHERE url_hash = HASH(:url) AND url = :url)`:
   * the id of the first place with the URL, or NULL.
   */
  function PlaceIdByHash(places: seq<Place>, url: string): (r: Option<int>)
    ensures r.None? <==> forall i :: 0 <= i < |places| ==> !(places[i].urlHash == UrlHash.HashOfUrl(url) && places[i].url == url)
    ensures r.Some? ==> exists i :: 0 <= i < |places| && places[i].urlHash == UrlHash.HashOfUrl(url) && places[i].url == url
                                  && places[i].id == r.value
  {
    var k := FirstWhere(places, SameUrl(url));
    if k.None? then None else Some(places[k.value].id)
  }
}

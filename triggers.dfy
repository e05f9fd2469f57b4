/**
 * The two temporary triggers of utils/triggers.py as functions on the rows of
 * `moz_places` and `moz_origins`: each UPDATE or INSERT of a trigger body is
 * one function here.  Module Store runs them where SQLite would fire them.
 */
module Triggers {
  import opened Results
  import opened SqlText
  import opened Places
  import UrlHash

  /** The scheme whose hash range `IS_PLACE_QUERY` tests. */
  const QUERY_SCHEME := "place"

  /**
   * `IS_PLACE_QUERY`: `url_hash BETWEEN HASH('place', 'prefix_lo') AND
   * HASH('place', 'prefix_hi')`.
   */
  function IsPlaceQuery(urlHash: int): (b: bool)
    ensures b <==> UrlHash.LowBound(QUERY_SCHEME) <= urlHash <= UrlHash.HighBound(QUERY_SCHEME)
  {
    var lo := UrlHash.HashFunction([QUERY_SCHEME, UrlHash.PREFIX_LO]);
    var hi := UrlHash.HashFunction([QUERY_SCHEME, UrlHash.PREFIX_HI]);
    lo.value <= urlHash <= hi.value
  }

  /** Every "place:" URL passes the test. */
  lemma PlaceUrlIsPlaceQuery(rest: string)
    ensures IsPlaceQuery(UrlHash.HashOfUrl(QUERY_SCHEME + ":" + rest))
  {
    UrlHash.SchemeUrlInRange(QUERY_SCHEME, rest);
  }

  /**
   * The test compares only the 16-bit tag of the scheme: a URL passes exactly
   * when the hash of the text before its first ':' has the tag of "place".
   */
  lemma IsPlaceQueryIffTag(url: string)
    ensures IsPlaceQuery(UrlHash.HashOfUrl(url)) <==> UrlHash.Tag(UrlHash.Scheme(url)) == UrlHash.Tag(QUERY_SCHEME)
  {
    UrlHash.InRangeIffTagsMatch(QUERY_SCHEME, url);
  }

  /** A boolean stored in an INTEGER column. */
  function SqlBool(b: bool): (r: int)
    ensures r == 1 <==> b
    ensures r == 0 <==> !b
  {
    if b then 1 else 0
  }

  /** `WHERE id = NEW.fk`: a NULL `fk` matches no row. */
  predicate References(fk: Option<int>, p: Place)
  {
    fk.Some? && p.id == fk.value
  }

  /**
   * The first UPDATE of the bookmark trigger: `SET frecency = (CASE WHEN
   * IS_PLACE_QUERY THEN 0 ELSE 1 END) WHERE frecency = -1 AND id = NEW.fk`.
   */
  function RaiseFrecency(places: seq<Place>, fk: Option<int>): (r: seq<Place>)
    ensures |r| == |places|
  {
    seq(|places|, i requires 0 <= i < |places| => RaisedRow(places[i], fk))
  }

  /** One row under the first UPDATE. */
  function RaisedRow(p: Place, fk: Option<int>): Place
  {
    if p.frecency == -1 && References(fk, p) then p.(frecency := if IsPlaceQuery(p.urlHash) then 0 else 1) else p
  }

  /**
   * The second UPDATE: `SET foreign_count = foreign_count + 1, hidden =
   * IS_PLACE_QUERY, recalc_frecency = NOT IS_PLACE_QUERY, recalc_alt_frecency =
   * NOT IS_PLACE_QUERY WHERE id = NEW.fk`.
   */
  function CountReference(places: seq<Place>, fk: Option<int>): (r: seq<Place>)
    ensures |r| == |places|
  {
    seq(|places|, i requires 0 <= i < |places| => CountedRow(places[i], fk))
  }

  /** One row under the second UPDATE. */
  function CountedRow(p: Place, fk: Option<int>): Place
  {
    var query := IsPlaceQuery(p.urlHash);
    if References(fk, p) then
      p.(foreignCount := p.foreignCount + 1, hidden := SqlBool(query),
         recalcFrecency := SqlBool(!query), recalcAltFrecency := SqlBool(!query))
    else p
  }

  /** The whole bookmark trigger: the two UPDATEs in order. */
  function AfterBookmarkInsert(places: seq<Place>, fk: Option<int>): (r: seq<Place>)
    ensures |r| == |places|
  {
    CountReference(RaiseFrecency(places, fk), fk)
  }

  /**
   * The referenced place gets frecency 0 (a place query) or 1 if it was -1,
   * one more reference, and its hidden and recalculation flags; every other
   * place is unchanged, and a folder (a NULL `fk`) changes nothing.
   */
  lemma AfterBookmarkInsertEffect(places: seq<Place>, fk: Option<int>)
    ensures var r := AfterBookmarkInsert(places, fk);
      && (fk.None? ==> r == places)
      && (forall i :: 0 <= i < |places| && !References(fk, places[i]) ==> r[i] == places[i])
      && forall i :: 0 <= i < |places| && References(fk, places[i]) ==>
        var p, q, query := places[i], r[i], IsPlaceQuery(places[i].urlHash);
        && q.frecency == (if p.frecency == -1 then (if query then 0 else 1) else p.frecency)
        && q.foreignCount == p.foreignCount + 1
        && q.hidden == SqlBool(query)
        && q.recalcFrecency == SqlBool(!query) && q.recalcAltFrecency == SqlBool(!query)
        && q.(frecency := p.frecency, foreignCount := p.foreignCount, hidden := p.hidden,
              recalcFrecency := p.recalcFrecency, recalcAltFrecency := p.recalcAltFrecency) == p
  {
  }

  /** A row of `moz_origins`. */
  datatype Origin = Origin(id: int, prefix: string, host: string, frecency: int, recalcFrecency: int, recalcAltFrecency: int)

  /** `WHERE prefix = ... AND host = ...`, the key of the UNIQUE constraint `ON CONFLICT(prefix, host)` names. */
  function HasKey(prefix: string, host: string): Origin -> bool
  {
    (o: Origin) => o.prefix == prefix && o.host == host
  }

  /** No two origins share a (prefix, host) key. */
  predicate KeysUnique(origins: seq<Origin>)
  {
    forall i, j :: 0 <= i < j < |origins| ==> !(origins[i].prefix == origins[j].prefix && origins[i].host == origins[j].host)
  }

  /**
   * The INSERT of the place trigger: a new origin `(prefix, host, frecency, 1,
   * 1)`; on a key conflict, `DO UPDATE SET recalc_frecency = 1,
   * recalc_alt_frecency = 1 WHERE EXCLUDED.recalc_frecency = 0 OR
   * EXCLUDED.recalc_alt_frecency = 0`, where EXCLUDED is the row that was not
   * inserted.
   */
  function UpsertOrigin(origins: seq<Origin>, prefix: string, host: string, frecency: int): (r: seq<Origin>)
    ensures |origins| <= |r| <= |origins| + 1 && r[..|origins|] == origins
  {
    var excluded := Origin(NextRowId(origins, (o: Origin) => o.id), prefix, host, frecency, 1, 1);
    var k := FirstWhere(origins, HasKey(prefix, host));
    if k.None? then origins + [excluded]
    else origins[k.value := ConflictUpdate(origins[k.value], excluded)]
  }

  /**
   * The DO UPDATE of the upsert on the origin `existing` that has the key:
   * it sets both flags when the WHERE on the `excluded` row holds.
   */
  function ConflictUpdate(existing: Origin, excluded: Origin): (r: Origin)
    ensures excluded.recalcFrecency != 0 && excluded.recalcAltFrecency != 0 ==> r == existing
  {
    if excluded.recalcFrecency == 0 || excluded.recalcAltFrecency == 0 then
      existing.(recalcFrecency := 1, recalcAltFrecency := 1)
    else existing
  }

  /**
   * The upsert never updates: an origin with the key is left as it is; without
   * one, a new origin with a fresh id, the place's frecency and both flags set
   * is appended.  Either way the keys stay unique.
   */
  lemma UpsertOriginEffect(origins: seq<Origin>, prefix: string, host: string, frecency: int)
    ensures var r := UpsertOrigin(origins, prefix, host, frecency);
      && ((exists i :: 0 <= i < |origins| && origins[i].prefix == prefix && origins[i].host == host) ==> r == origins)
      && ((forall i :: 0 <= i < |origins| ==> !(origins[i].prefix == prefix && origins[i].host == host)) ==>
            && |r| == |origins| + 1 && r[..|origins|] == origins
            && r[|origins|].prefix == prefix && r[|origins|].host == host && r[|origins|].frecency == frecency
            && r[|origins|].recalcFrecency == 1 && r[|origins|].recalcAltFrecency == 1
            && forall i :: 0 <= i < |origins| ==> origins[i].id < r[|origins|].id)
      && (KeysUnique(origins) ==> KeysUnique(r))
  {
    var k := FirstWhere(origins, HasKey(prefix, host));
    if k.None? {
      var r := UpsertOrigin(origins, prefix, host, frecency);
      assert forall i :: 0 <= i < |origins| ==> r[i] == origins[i];
    }
  }

  /**
   * The scalar subquery `(SELECT id FROM moz_origins WHERE prefix = ... AND
   * host = ...)`: the id of the first origin with the key, or NULL.
   */
  function OriginIdOf(origins: seq<Origin>, prefix: string, host: string): (r: Option<int>)
    ensures r.None? <==> forall i :: 0 <= i < |origins| ==> !(origins[i].prefix == prefix && origins[i].host == host)
  {
    var k := FirstWhere(origins, HasKey(prefix, host));
    if k.None? then None else Some(origins[k.value].id)
  }

  /** After the upsert, the key names exactly one origin, and the subquery gives its id. */
  lemma OriginIdAfterUpsert(origins: seq<Origin>, prefix: string, host: string, frecency: int)
    requires KeysUnique(origins)
    ensures var r := UpsertOrigin(origins, prefix, host, frecency);
      exists k :: 0 <= k < |r| && r[k].prefix == prefix && r[k].host == host
        && OriginIdOf(r, prefix, host) == Some(r[k].id)
        && forall j :: 0 <= j < |r| && j != k ==> !(r[j].prefix == prefix && r[j].host == host)
  {
    UpsertOriginEffect(origins, prefix, host, frecency);
    var r := UpsertOrigin(origins, prefix, host, frecency);
    var k := FirstWhere(r, HasKey(prefix, host));
    assert k.Some? by {
      if forall i :: 0 <= i < |origins| ==> !(origins[i].prefix == prefix && origins[i].host == host) {
        assert HasKey(prefix, host)(r[|origins|]);
      }
    }
    assert KeysUnique(r);
  }

  /** The UPDATE of the place trigger: `SET origin_id = ... WHERE id = NEW.id`. */
  function SetOriginId(places: seq<Place>, id: int, originId: Option<int>): (r: seq<Place>)
    ensures |r| == |places|
    ensures forall i :: 0 <= i < |places| ==> r[i].(originId := places[i].originId) == places[i]
    ensures forall i :: 0 <= i < |places| && places[i].id == id ==> r[i].originId == originId
    ensures forall i :: 0 <= i < |places| && places[i].id != id ==> r[i] == places[i]
  {
    seq(|places|, i requires 0 <= i < |places| => if places[i].id == id then places[i].(originId := originId) else places[i])
  }

  /**
   * The whole place trigger for a new place `row`: upsert the origin of its
   * prefix and host, then point the place at it.
   */
  function AfterPlaceInsert(places: seq<Place>, origins: seq<Origin>, parse: string -> UrlParts, row: Place): (r: (seq<Place>, seq<Origin>))
    ensures |r.0| == |places|
  {
    var prefix, host := GetPrefix(parse, row.url), GetHostAndPort(parse, row.url);
    var origins' := UpsertOrigin(origins, prefix, host, row.frecency);
    (SetOriginId(places, row.id, OriginIdOf(origins', prefix, host)), origins')
  }

  /**
   * After the place trigger, the new place points at the one origin whose
   * prefix and host are those of its URL, the origin keys stay unique, and no
   * other place changes.
   */
  lemma AfterPlaceInsertEffect(places: seq<Place>, origins: seq<Origin>, parse: string -> UrlParts, row: Place)
    requires KeysUnique(origins)
    requires forall i :: 0 <= i < |places| - 1 ==> places[i].id != row.id
    requires |places| > 0 && places[|places| - 1] == row
    ensures var (ps, os) := AfterPlaceInsert(places, origins, parse, row);
      && KeysUnique(os)
      && ps[..|places| - 1] == places[..|places| - 1]
      && exists k :: 0 <= k < |os| && os[k].prefix == GetPrefix(parse, row.url) && os[k].host == GetHostAndPort(parse, row.url)
           && ps[|places| - 1] == row.(originId := Some(os[k].id))
  {
    var prefix, host := GetPrefix(parse, row.url), GetHostAndPort(parse, row.url);
    UpsertOriginEffect(origins, prefix, host, row.frecency);
    OriginIdAfterUpsert(origins, prefix, host, row.frecency);
  }
}

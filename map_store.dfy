/**
 * The saved learning maps behind `/maps/save`, `/maps`, `/maps/{id}`,
 * `/maps/{id}/export` and `DELETE /maps/{id}`: one collection of records, each
 * visible only to the user who saved it. `owner` is always the id of the
 * authenticated caller.
 */
module MapStore {
  import opened Wrappers
  import opened Http
  import Collection
  import AiReply

  /** `get_maps` returns at most this many maps. */
  const ListLimit: nat := 100
  const MapNotFound: HttpError := HttpError(NotFound, "Learning map not found")
  const SavedMessage: string := "Learning map saved successfully"
  const DeletedMessage: string := "Learning map deleted successfully"

  /** A stored learning map; times are seconds since the epoch. */
  datatype LearningMap = LearningMap(
    id: string, userId: string, topic: string, level: string,
    nodes: seq<AiReply.Json>, edges: seq<AiReply.Json>,
    createdAt: int, updatedAt: int)

  /** No two stored maps share an id, as fresh uuids ensure. */
  ghost predicate UniqueIds(maps: seq<LearningMap>) {
    forall i, j :: 0 <= i < j < |maps| ==> maps[i].id != maps[j].id
  }

  /** The `{"success": true, "message": ..., "map_id": ...}` body that `save_map` returns. */
  datatype SaveReceipt = SaveReceipt(success: bool, message: string, mapId: string)

  /** The `{"success": true, "map": ...}` body that `get_map` returns. */
  datatype MapEnvelope = MapEnvelope(success: bool, learningMap: LearningMap)

  function Min(a: int, b: int): int {
    if a <= b then a else b
  }

  // ----- the owner filter -----

  /** `find({"user_id": owner})`: the maps of one owner, in stored order. */
  function OwnedBy(maps: seq<LearningMap>, owner: string): (r: seq<LearningMap>)
    ensures |r| <= |maps|
    ensures forall k :: 0 <= k < |r| ==> r[k].userId == owner
    ensures multiset(r) <= multiset(maps)
  {
    if |maps| == 0 then []
    else
      assert maps == [maps[0]] + maps[1..];
      (if maps[0].userId == owner then [maps[0]] else []) + OwnedBy(maps[1..], owner)
  }

  /** The owner filter keeps every copy of every map the owner holds. */
  lemma {:induction false} OwnedByKeepsOwned(maps: seq<LearningMap>, owner: string, m: LearningMap)
    requires m.userId == owner
    ensures multiset(OwnedBy(maps, owner))[m] == multiset(maps)[m]
  {
    if |maps| > 0 {
      assert maps == [maps[0]] + maps[1..];
      OwnedByKeepsOwned(maps[1..], owner, m);
    }
  }

  /** Removing a map of one owner leaves every other owner's maps as they were. */
  lemma {:induction false} OtherOwnersUnaffected(maps: seq<LearningMap>, i: nat, other: string)
    requires i < |maps| && maps[i].userId != other
    ensures OwnedBy(maps[..i] + maps[i + 1..], other) == OwnedBy(maps, other)
  {
    var rest := maps[..i] + maps[i + 1..];
    if i == 0 {
      assert rest == maps[1..];
    } else {
      var tail := maps[1..];
      assert rest == [maps[0]] + (tail[..i - 1] + tail[i..]);
      assert rest[1..] == tail[..i - 1] + tail[i..];
      OtherOwnersUnaffected(tail, i - 1, other);
    }
  }

  // ----- sort("created_at", -1) -----

  /** Newest first: creation times never increase along the sequence. */
  predicate NewestFirst(s: seq<LearningMap>) {
    forall i, j :: 0 <= i < j < |s| ==> s[i].createdAt >= s[j].createdAt
  }

  /** Put `m` before the first map that is not newer than it. */
  function Insert(m: LearningMap, s: seq<LearningMap>): (r: seq<LearningMap>)
    requires NewestFirst(s)
    ensures NewestFirst(r)
    ensures multiset(r) == multiset(s) + multiset{m}
    ensures r[0] == m || (|s| > 0 && r[0] == s[0])
  {
    if |s| == 0 || s[0].createdAt <= m.createdAt then [m] + s
    else
      var rest := Insert(m, s[1..]);
      assert s == [s[0]] + s[1..];
      PrependNewest(s[0], rest);
      [s[0]] + rest
  }

  /** A map no older than the head of a newest-first sequence can go in front of it. */
  lemma PrependNewest(x: LearningMap, s: seq<LearningMap>)
    requires NewestFirst(s) && (|s| > 0 ==> x.createdAt >= s[0].createdAt)
    ensures NewestFirst([x] + s)
  {
    var r := [x] + s;
    forall i, j | 0 <= i < j < |r|
      ensures r[i].createdAt >= r[j].createdAt
    {
      assert r[j] == s[j - 1];
      if i > 0 {
        assert r[i] == s[i - 1];
      }
    }
  }

  /** The maps ordered newest first; maps created at the same time keep their stored order. */
  function SortNewestFirst(s: seq<LearningMap>): (r: seq<LearningMap>)
    ensures NewestFirst(r)
    ensures multiset(r) == multiset(s)
  {
    if |s| == 0 then []
    else
      assert s == [s[0]] + s[1..];
      Insert(s[0], SortNewestFirst(s[1..]))
  }

  /** Whatever a newest-first sequence leaves out past its first `n` is no newer than what it keeps. */
  lemma NewestPrefix(s: seq<LearningMap>, n: nat, m: LearningMap)
    requires NewestFirst(s) && n <= |s|
    requires m in multiset(s) - multiset(s[..n])
    ensures forall k :: 0 <= k < n ==> m.createdAt <= s[k].createdAt
  {
    assert s == s[..n] + s[n..];
    assert multiset(s) - multiset(s[..n]) == multiset(s[n..]);
    assert m in s[n..];
  }

  /** The first `n` of the owner's maps sorted newest first are the owner's `n` newest maps. */
  lemma NewestPrefixKeeps(owned: seq<LearningMap>, owner: string, sorted: seq<LearningMap>, n: nat)
    requires forall k :: 0 <= k < |owned| ==> owned[k].userId == owner
    requires NewestFirst(sorted) && multiset(sorted) == multiset(owned) && n <= |sorted|
    ensures forall k :: 0 <= k < n ==> sorted[k].userId == owner
    ensures NewestFirst(sorted[..n])
    ensures multiset(sorted[..n]) <= multiset(owned)
    ensures forall m :: m in multiset(owned) - multiset(sorted[..n]) ==>
      forall k :: 0 <= k < n ==> m.createdAt <= sorted[..n][k].createdAt
  {
    assert sorted == sorted[..n] + sorted[n..];
    forall k | 0 <= k < n
      ensures sorted[k].userId == owner
    {
      assert sorted[k] in multiset(sorted);
      assert sorted[k] in owned;
    }
    forall m | m in multiset(owned) - multiset(sorted[..n])
      ensures forall k :: 0 <= k < n ==> m.createdAt <= sorted[..n][k].createdAt
    {
      NewestPrefix(sorted, n, m);
    }
  }

  class MapCollection {
    /** The `learning_maps` collection, in insertion order. */
    var maps: seq<LearningMap>

    constructor ()
      ensures maps == []
    {
      maps := [];
    }

    /** `find_one({"id": mapId, "user_id": owner})`. */
    function FindOwned(owner: string, mapId: string): Option<nat>
      reads this
    {
      Collection.FindOne(maps, (m: LearningMap) => m.id == mapId && m.userId == owner)
    }

    /**
     * `save_map`: store a new map for `owner` under the fresh id `newId` and
     * report success with that id; nothing already stored changes.
     */
    method SaveMap(
      owner: string, topic: string, level: string,
      nodes: seq<AiReply.Json>, edges: seq<AiReply.Json>,
      newId: string, createdAt: int, updatedAt: int)
      returns (r: SaveReceipt)
      modifies this
      ensures r == SaveReceipt(true, SavedMessage, newId)
      ensures maps == old(maps) + [LearningMap(newId, owner, topic, level, nodes, edges, createdAt, updatedAt)]
      ensures old(FindOwned(owner, newId)).None? ==>
        GetMap(owner, newId) == Ok(MapEnvelope(true, maps[|maps| - 1]))
    {
      var saved := LearningMap(newId, owner, topic, level, nodes, edges, createdAt, updatedAt);
      ghost var before := maps;
      maps := maps + [saved];
      if Collection.FindOne(before, (m: LearningMap) => m.id == newId && m.userId == owner).None? {
        Collection.FindOneAppended(before, saved, (m: LearningMap) => m.id == newId && m.userId == owner);
      }
      r := SaveReceipt(true, SavedMessage, newId);
    }

    /**
     * `get_maps`: the caller's maps only, newest first, at most a hundred of
     * them; a map left out is no newer than any map returned.
     */
    function GetMaps(owner: string): (r: seq<LearningMap>)
      reads this
      ensures forall k :: 0 <= k < |r| ==> r[k].userId == owner
      ensures multiset(r) <= multiset(maps)
      ensures NewestFirst(r)
      ensures |r| == Min(ListLimit, |OwnedBy(maps, owner)|)
      ensures forall m :: m in multiset(OwnedBy(maps, owner)) - multiset(r) ==>
        forall k :: 0 <= k < |r| ==> m.createdAt <= r[k].createdAt
    {
      var owned := OwnedBy(maps, owner);
      var sorted := SortNewestFirst(owned);
      assert |sorted| == |multiset(sorted)| == |owned|;
      var n := Min(ListLimit, |sorted|);
      NewestPrefixKeeps(owned, owner, sorted, n);
      sorted[..n]
    }

    /**
     * `get_map`: the map with this id when the caller owns it; a map that
     * does not exist and one that belongs to someone else are both not found.
     */
    function GetMap(owner: string, mapId: string): (r: Result<MapEnvelope, HttpError>)
      reads this
      ensures r.Ok? <==> exists k :: 0 <= k < |maps| && maps[k].id == mapId && maps[k].userId == owner
      ensures r.Ok? ==> r.value.success && r.value.learningMap in maps
      ensures r.Ok? ==> r.value.learningMap.id == mapId && r.value.learningMap.userId == owner
      ensures r.Err? ==> r.error == MapNotFound
    {
      match FindOwned(owner, mapId)
      case None => Err(MapNotFound)
      case Some(k) => Ok(MapEnvelope(true, maps[k]))
    }

    /** `export_map`: the same lookup as `get_map`, answering with the bare map. */
    function ExportMap(owner: string, mapId: string): (r: Result<LearningMap, HttpError>)
      reads this
      ensures r.Ok? <==> GetMap(owner, mapId).Ok?
      ensures r.Ok? ==> r.value == GetMap(owner, mapId).value.learningMap
      ensures r.Err? ==> r.error == MapNotFound
    {
      match FindOwned(owner, mapId)
      case None => Err(MapNotFound)
      case Some(k) => Ok(maps[k])
    }

    /**
     * `delete_map`: remove the first map with this id that the caller owns;
     * when there is none, report not found and change nothing. Every other
     * map stays, in its order, and no other owner's maps change.
     */
    method DeleteMap(owner: string, mapId: string) returns (r: Result<string, HttpError>)
      modifies this
      ensures old(FindOwned(owner, mapId)).None? ==> r == Err(MapNotFound) && maps == old(maps)
      ensures old(FindOwned(owner, mapId)).Some? ==>
        var i := old(FindOwned(owner, mapId)).value;
        && r == Ok(DeletedMessage)
        && maps == old(maps)[..i] + old(maps)[i + 1..]
        && old(maps)[i].id == mapId && old(maps)[i].userId == owner
        && multiset(maps) == multiset(old(maps)) - multiset{old(maps)[i]}
      ensures forall other :: other != owner ==> OwnedBy(maps, other) == OwnedBy(old(maps), other)
      ensures UniqueIds(old(maps)) ==> GetMap(owner, mapId) == Err(MapNotFound)
    {
      match FindOwned(owner, mapId)
      case None =>
        r := Err(MapNotFound);
      case Some(i) =>
        ghost var before := maps;
        maps := maps[..i] + maps[i + 1..];
        assert before == before[..i] + [before[i]] + before[i + 1..];
        forall other | other != owner
          ensures OwnedBy(maps, other) == OwnedBy(before, other)
        {
          OtherOwnersUnaffected(before, i, other);
        }
        forall k | 0 <= k < |maps| && UniqueIds(before)
          ensures !(maps[k].id == mapId && maps[k].userId == owner)
        {
          if k < i { assert maps[k] == before[k]; } else { assert maps[k] == before[k + 1]; }
        }
        r := Ok(DeletedMessage);
    }
  }
}

// The two backends of the recommendation service: GetUser of
// lab1/user_service/server_lib/server_lib.go and GetVideo of
// lab1/video_service/server_lib/server_lib.go, and the deduplication both sides use.
module Backends {
  import opened Util
  import Ranker

  datatype UserInfo = UserInfo(userId: nat, subscribedTo: seq<nat>, coeffs: Ranker.Coeffs, likedVideos: seq<nat>)

  datatype VideoInfo = VideoInfo(videoId: nat, coeffs: Ranker.Coeffs)

  /** Injected has code Internal; the next three have code InvalidArgument. */
  datatype RpcError =
    | Injected
    | NoIds
    | TooManyIds
    | DuplicateIds
    | NotFound(id: nat)

  // ---------- deduplication ----------

  /** The first occurrences, in order. */
  function Dedup(ids: seq<nat>): seq<nat> {
    if ids == [] then [] else
    var d := Dedup(ids[..|ids| - 1]);
    var x := ids[|ids| - 1];
    if x in d then d else d + [x]
  }

  predicate Distinct(ids: seq<nat>) {
    forall i, j :: 0 <= i < j < |ids| ==> ids[i] != ids[j]
  }

  lemma {:induction false} DedupIsSet(ids: seq<nat>)
    ensures Distinct(Dedup(ids)) && |Dedup(ids)| <= |ids|
    ensures forall x :: x in Dedup(ids) <==> x in ids
  {
    if ids != [] {
      var init := ids[..|ids| - 1];
      DedupIsSet(init);
      assert ids == init + [ids[|ids| - 1]];
    }
  }

  lemma {:induction false} DedupDistinct(ids: seq<nat>)
    ensures Distinct(ids) ==> Dedup(ids) == ids
    ensures !Distinct(ids) ==> |Dedup(ids)| < |ids|
  {
    if ids != [] {
      var init := ids[..|ids| - 1];
      var x := ids[|ids| - 1];
      assert ids == init + [x];
      DedupDistinct(init);
      DedupIsSet(init);
      if Distinct(init) && !Distinct(ids) {
        assert x in init;
      }
    }
  }

  /** at gives the places of the elements of d in ids, in order; kept says for every id which of
      them stands for it; and none before that place is the same id. */
  ghost predicate FirstPlaces(ids: seq<nat>, d: seq<nat>, at: seq<nat>, kept: seq<nat>) {
    && |at| == |d| && |kept| == |ids|
    && (forall k :: 0 <= k < |at| ==> at[k] < |ids| && d[k] == ids[at[k]])
    && (forall k, l :: 0 <= k < l < |at| ==> at[k] < at[l])
    && (forall i :: 0 <= i < |ids| ==> kept[i] < |at| && at[kept[i]] <= i && ids[at[kept[i]]] == ids[i])
    && (forall k, i :: 0 <= k < |at| && 0 <= i < at[k] ==> ids[i] != ids[at[k]])
  }

  lemma KeepsOld(ids: seq<nat>, x: nat, d: seq<nat>, at: seq<nat>, kept: seq<nat>, k: nat)
    requires FirstPlaces(ids, d, at, kept) && k < |d| && d[k] == x
    ensures FirstPlaces(ids + [x], d, at, kept + [k])
  {
  }

  lemma KeepsNew(ids: seq<nat>, x: nat, d: seq<nat>, at: seq<nat>, kept: seq<nat>)
    requires FirstPlaces(ids, d, at, kept) && x !in ids
    ensures FirstPlaces(ids + [x], d + [x], at + [|ids|], kept + [|at|])
  {
  }

  lemma {:induction false} DedupPlaces(ids: seq<nat>) returns (at: seq<nat>, kept: seq<nat>)
    ensures FirstPlaces(ids, Dedup(ids), at, kept)
  {
    if ids == [] {
      at, kept := [], [];
    } else {
      var n := |ids| - 1;
      var d := Dedup(ids[..n]);
      at, kept := DedupPlaces(ids[..n]);
      DedupIsSet(ids[..n]);
      assert ids == ids[..n] + [ids[n]];
      if k :| 0 <= k < |d| && d[k] == ids[n] {
        KeepsOld(ids[..n], ids[n], d, at, kept, k);
        kept := kept + [k];
      } else {
        KeepsNew(ids[..n], ids[n], d, at, kept);
        at, kept := at + [n], kept + [|at|];
      }
    }
  }

  /** What is left are the first occurrences, in the order of the ids. */
  lemma DedupKeepsFirst(ids: seq<nat>) returns (at: seq<nat>, kept: seq<nat>)
    ensures |at| == |Dedup(ids)| && |kept| == |ids|
    ensures forall k :: 0 <= k < |at| ==> at[k] < |ids| && Dedup(ids)[k] == ids[at[k]]
    ensures forall k, l :: 0 <= k < l < |at| ==> at[k] < at[l]
    ensures forall i :: 0 <= i < |ids| ==> kept[i] < |at| && at[kept[i]] <= i && ids[at[kept[i]]] == ids[i]
    ensures forall k, i :: 0 <= k < |at| && 0 <= i < at[k] ==> ids[i] != ids[at[k]]
  {
    at, kept := DedupPlaces(ids);
  }

  method DeduplicateIds(ids: seq<nat>) returns (deduped: seq<nat>)
    ensures deduped == Dedup(ids)
  {
    deduped := [];
    var seen: set<nat> := {};
    for i := 0 to |ids|
      invariant deduped == Dedup(ids[..i])
      invariant forall x :: x in seen <==> x in deduped
    {
      assert ids[..i + 1][..i] == ids[..i];
      if ids[i] !in seen {
        seen := seen + {ids[i]};
        deduped := deduped + [ids[i]];
      }
    }
    assert ids[..|ids|] == ids;
  }

  // ---------- looking up a batch ----------

  /** The entries for all ids, or the first id that has none. */
  function LookupAll<V>(db: map<nat, V>, ids: seq<nat>): Result<seq<V>, RpcError> {
    if ids == [] then Ok([]) else
    var r := LookupAll(db, ids[..|ids| - 1]);
    var x := ids[|ids| - 1];
    if r.Err? then r else if x in db then Ok(r.value + [db[x]]) else Err(NotFound(x))
  }

  lemma {:induction false} LookupOk<V>(db: map<nat, V>, ids: seq<nat>)
    ensures LookupAll(db, ids).Ok? <==> forall i :: 0 <= i < |ids| ==> ids[i] in db
    ensures LookupAll(db, ids).Ok? ==>
              LookupAll(db, ids).value == seq(|ids|, i requires 0 <= i < |ids| && ids[i] in db => db[ids[i]])
    ensures LookupAll(db, ids).Err? ==> LookupAll(db, ids).error.NotFound?
  {
    if ids != [] {
      LookupOk(db, ids[..|ids| - 1]);
    }
  }

  /** The error names the first id that has no entry. */
  lemma {:induction false} LookupErr<V>(db: map<nat, V>, ids: seq<nat>)
    requires LookupAll(db, ids).Err?
    ensures exists i :: && 0 <= i < |ids| && ids[i] !in db && LookupAll(db, ids).error == NotFound(ids[i])
                        && forall j :: 0 <= j < i ==> ids[j] in db
  {
    var init := ids[..|ids| - 1];
    assert forall j :: 0 <= j < |init| ==> init[j] == ids[j];
    LookupOk(db, init);
    if LookupAll(db, init).Err? {
      LookupErr(db, init);
      var i :| && 0 <= i < |init| && init[i] !in db && LookupAll(db, init).error == NotFound(init[i])
               && forall j :: 0 <= j < i ==> init[j] in db;
      assert ids[i] == init[i];
    } else {
      forall j | 0 <= j < |ids| - 1 ensures ids[j] in db {
        assert init[j] in db;
      }
      assert LookupAll(db, ids).error == NotFound(ids[|ids| - 1]);
    }
  }

  lemma {:induction false} LookupAppend<V>(db: map<nat, V>, s: seq<nat>, t: seq<nat>)
    ensures LookupAll(db, s + t) ==
            (if LookupAll(db, s).Err? then LookupAll(db, s)
             else if LookupAll(db, t).Err? then LookupAll(db, t)
             else Ok(LookupAll(db, s).value + LookupAll(db, t).value))
  {
    if t == [] {
      assert s + t == s;
      if LookupAll(db, s).Ok? {
        assert LookupAll(db, s).value + [] == LookupAll(db, s).value;
      }
    } else {
      LookupAppend(db, s, t[..|t| - 1]);
      assert (s + t)[..|s + t| - 1] == s + t[..|t| - 1];
      if LookupAll(db, s).Ok? && LookupAll(db, t).Ok? {
        var a, b := LookupAll(db, s).value, LookupAll(db, t[..|t| - 1]).value;
        var x := db[t[|t| - 1]];
        assert a + (b + [x]) == (a + b) + [x];
      }
    }
  }

  lemma {:induction false} LookupErrPrefix<V>(db: map<nat, V>, ids: seq<nat>, k: nat)
    requires k <= |ids| && LookupAll(db, ids[..k]).Err?
    ensures LookupAll(db, ids) == LookupAll(db, ids[..k])
  {
    assert ids == ids[..k] + ids[k..];
    LookupAppend(db, ids[..k], ids[k..]);
  }

  // ---------- the services ----------

  function UserReply(db: map<nat, UserInfo>, max: int, ids: seq<nat>, injected: bool): Result<seq<UserInfo>, RpcError> {
    if injected then Err(Injected)
    else if ids == [] then Err(NoIds)
    else if |ids| > max then Err(TooManyIds)
    else LookupAll(db, ids)
  }

  function VideoReply(db: map<nat, VideoInfo>, max: int, ids: seq<nat>, injected: bool):
    Result<seq<VideoInfo>, RpcError>
  {
    if injected then Err(Injected)
    else if ids == [] then Err(NoIds)
    else if |ids| > max then Err(TooManyIds)
    else if !Distinct(ids) then Err(DuplicateIds)
    else LookupAll(db, ids)
  }

  /** injected is what the failure injector decides for a call. */
  class UserService {
    const users: map<nat, UserInfo>
    const maxBatchSize: int

    constructor (users: map<nat, UserInfo>, maxBatchSize: int)
      ensures this.users == users && this.maxBatchSize == maxBatchSize
    {
      this.users, this.maxBatchSize := users, maxBatchSize;
    }

    method GetUser(ids: seq<nat>, injected: bool) returns (r: Result<seq<UserInfo>, RpcError>)
      ensures r == UserReply(users, maxBatchSize, ids, injected)
      ensures injected <==> r == Err(Injected)
      ensures !injected && ids == [] <==> r == Err(NoIds)
      ensures !injected && 0 < |ids| && maxBatchSize < |ids| <==> r == Err(TooManyIds)
      ensures r != Err(DuplicateIds)
      ensures r.Ok? ==>
                |r.value| == |ids| && forall i :: 0 <= i < |ids| ==> ids[i] in users && r.value[i] == users[ids[i]]
      ensures r.Err? && r.error.NotFound? ==>
                exists i :: && 0 <= i < |ids| && ids[i] !in users && r.error.id == ids[i]
                            && forall j :: 0 <= j < i ==> ids[j] in users
    {
      if injected {
        return Err(Injected);
      }
      if |ids| == 0 {
        return Err(NoIds);
      }
      if |ids| > maxBatchSize {
        return Err(TooManyIds);
      }
      var infos := [];
      for i := 0 to |ids|
        invariant LookupAll(users, ids[..i]) == Ok(infos)
      {
        assert ids[..i + 1][..i] == ids[..i];
        if ids[i] in users {
          infos := infos + [users[ids[i]]];
        } else {
          LookupErrPrefix(users, ids, i + 1);
          LookupErr(users, ids);
          return Err(NotFound(ids[i]));
        }
      }
      assert ids[..|ids|] == ids;
      LookupOk(users, ids);
      r := Ok(infos);
    }
  }

  class VideoService {
    const videos: map<nat, VideoInfo>
    const maxBatchSize: int

    constructor (videos: map<nat, VideoInfo>, maxBatchSize: int)
      ensures this.videos == videos && this.maxBatchSize == maxBatchSize
    {
      this.videos, this.maxBatchSize := videos, maxBatchSize;
    }

    method GetVideo(ids: seq<nat>, injected: bool) returns (r: Result<seq<VideoInfo>, RpcError>)
      ensures r == VideoReply(videos, maxBatchSize, ids, injected)
      ensures injected <==> r == Err(Injected)
      ensures !injected && ids == [] <==> r == Err(NoIds)
      ensures !injected && 0 < |ids| && maxBatchSize < |ids| <==> r == Err(TooManyIds)
      ensures r == Err(DuplicateIds) <==>
              && !injected && 0 < |ids| <= maxBatchSize
              && exists i, j :: 0 <= i < j < |ids| && ids[i] == ids[j]
      ensures r.Ok? ==>
                |r.value| == |ids| && forall i :: 0 <= i < |ids| ==> ids[i] in videos && r.value[i] == videos[ids[i]]
      ensures r.Err? && r.error.NotFound? ==>
                exists i :: && 0 <= i < |ids| && ids[i] !in videos && r.error.id == ids[i]
                            && forall j :: 0 <= j < i ==> ids[j] in videos
    {
      if injected {
        return Err(Injected);
      }
      if |ids| == 0 {
        return Err(NoIds);
      }
      if |ids| > maxBatchSize {
        return Err(TooManyIds);
      }
      var deduped := DeduplicateIds(ids);
      DedupDistinct(ids);
      if |deduped| != |ids| {
        return Err(DuplicateIds);
      }
      var infos := [];
      for i := 0 to |ids|
        invariant LookupAll(videos, ids[..i]) == Ok(infos)
      {
        assert ids[..i + 1][..i] == ids[..i];
        if ids[i] in videos {
          infos := infos + [videos[ids[i]]];
        } else {
          LookupErrPrefix(videos, ids, i + 1);
          LookupErr(videos, ids);
          return Err(NotFound(ids[i]));
        }
      }
      assert ids[..|ids|] == ids;
      LookupOk(videos, ids);
      r := Ok(infos);
    }
  }
}

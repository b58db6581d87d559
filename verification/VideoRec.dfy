// GetTopVideos of lab1/video_rec_service/server_lib/server_lib.go, run as one request at a
// time: batches, retries, deduplication, ranking, the fallback on the cache, and the in-place
// sort. inject(k) says whether the failure injectors fail the k-th RPC attempt.
module VideoRec {
  import opened Util
  import opened Backends
  import Ranker

  /** maxBatchSize is not negative: slicing with a negative batch panics. */
  datatype Options = Options(maxBatchSize: nat, disableFallback: bool, disableRetry: bool)

  datatype Response = Response(videos: seq<VideoInfo>, stale: bool)

  datatype Error =
    | NegativeLimit
    | UserServiceError(cause: RpcError)
    | VideoServiceError(cause: RpcError)

  // ---------- the unbatched specification ----------

  function AllLiked(infos: seq<UserInfo>): seq<nat> {
    if infos == [] then [] else AllLiked(infos[..|infos| - 1]) + infos[|infos| - 1].likedVideos
  }

  lemma {:induction false} AllLikedAppend(s: seq<UserInfo>, t: seq<UserInfo>)
    ensures AllLiked(s + t) == AllLiked(s) + AllLiked(t)
  {
    if t == [] {
      assert s + t == s;
    } else {
      var init, last := t[..|t| - 1], t[|t| - 1].likedVideos;
      AllLikedAppend(s, init);
      assert (s + t)[..|s + t| - 1] == s + init;
      assert AllLiked(s) + AllLiked(init) + last == AllLiked(s) + (AllLiked(init) + last);
    }
  }

  function LikedBy(users: map<nat, UserInfo>, ids: seq<nat>): Result<seq<nat>, RpcError> {
    var infos := LookupAll(users, ids);
    if infos.Err? then Err(infos.error) else Ok(AllLiked(infos.value))
  }

  /** The videos that a user's recommendations rank: the distinct liked videos of all users the
      user is subscribed to. An error if some entry is missing. */
  function Candidates(users: map<nat, UserInfo>, videos: map<nat, VideoInfo>, userId: nat):
    Result<seq<VideoInfo>, RpcError>
  {
    if userId !in users then Err(NotFound(userId)) else
    var liked := LikedBy(users, users[userId].subscribedTo);
    if liked.Err? then Err(liked.error) else LookupAll(videos, Dedup(liked.value))
  }

  /** There are candidates exactly if every entry on the way is there: the user, all users that it
      is subscribed to, and all videos that they like. */
  lemma CandidatesKnown(users: map<nat, UserInfo>, videos: map<nat, VideoInfo>, userId: nat)
    ensures Candidates(users, videos, userId).Ok? <==>
              && userId in users
              && (forall k :: 0 <= k < |users[userId].subscribedTo| ==> users[userId].subscribedTo[k] in users)
              && (forall k, m ::
                    && 0 <= k < |users[userId].subscribedTo|
                    && 0 <= m < |users[users[userId].subscribedTo[k]].likedVideos| ==>
                    users[users[userId].subscribedTo[k]].likedVideos[m] in videos)
  {
    if userId in users {
      var ids := users[userId].subscribedTo;
      LookupOk(users, ids);
      if LikedBy(users, ids).Ok? {
        LikedMembers(users, ids);
        DedupMissing(videos, LikedBy(users, ids).value);
      }
    }
  }

  lemma DedupMissing(videos: map<nat, VideoInfo>, ids: seq<nat>)
    ensures LookupAll(videos, Dedup(ids)).Ok? <==> forall x :: x in ids ==> x in videos
  {
    LookupOk(videos, Dedup(ids));
    DedupIsSet(ids);
    if x :| x in ids && x !in videos {
      assert x in Dedup(ids);
    }
  }

  /** A batch of ids that are all known is itself all known, and extends the batches before it. */
  lemma LookupBatch<V>(db: map<nat, V>, ids: seq<nat>, i: nat, end: nat)
    requires i <= end <= |ids|
    ensures LookupAll(db, ids).Ok? ==> LookupAll(db, ids[i..end]).Ok?
    ensures LookupAll(db, ids[..i]).Ok? && LookupAll(db, ids[i..end]).Ok? ==>
              LookupAll(db, ids[..end]) == Ok(LookupAll(db, ids[..i]).value + LookupAll(db, ids[i..end]).value)
  {
    LookupOk(db, ids);
    LookupOk(db, ids[i..end]);
    LookupAppend(db, ids[..i], ids[i..end]);
    assert ids[..end] == ids[..i] + ids[i..end];
  }

  lemma LikedBatch(users: map<nat, UserInfo>, ids: seq<nat>, i: nat, end: nat)
    requires i <= end <= |ids|
    ensures LikedBy(users, ids).Ok? ==> LikedBy(users, ids[i..end]).Ok?
    ensures LikedBy(users, ids[..i]).Ok? && LikedBy(users, ids[i..end]).Ok? ==>
              LikedBy(users, ids[..end]) == Ok(LikedBy(users, ids[..i]).value + LikedBy(users, ids[i..end]).value)
  {
    LookupBatch(users, ids, i, end);
    if LookupAll(users, ids[..i]).Ok? && LookupAll(users, ids[i..end]).Ok? {
      AllLikedAppend(LookupAll(users, ids[..i]).value, LookupAll(users, ids[i..end]).value);
    }
  }

  /** at[k] is the place where the liked videos of ids[k] begin. */
  ghost predicate LikedPlaces(users: map<nat, UserInfo>, ids: seq<nat>, liked: seq<nat>, at: seq<nat>) {
    && |at| == |ids| + 1 && at[0] == 0 && at[|ids|] == |liked|
    && forall k {:trigger ids[k]} :: 0 <= k < |ids| ==>
         && ids[k] in users
         && var those := users[ids[k]].likedVideos;
            at[k + 1] == at[k] + |those| <= |liked| && liked[at[k]..at[k] + |those|] == those
  }

  lemma PlacesSnoc(users: map<nat, UserInfo>, ids: seq<nat>, liked: seq<nat>, at: seq<nat>, id: nat)
    requires LikedPlaces(users, ids, liked, at) && id in users
    ensures var those := users[id].likedVideos;
            LikedPlaces(users, ids + [id], liked + those, at + [|liked| + |those|])
  {
    var those := users[id].likedVideos;
    var more, longer, ends := ids + [id], liked + those, at + [|liked| + |those|];
    assert longer[|liked|..|liked| + |those|] == those;
    forall k {:trigger more[k]} | 0 <= k < |ids|
      ensures var l := users[ids[k]].likedVideos;
              more[k] == ids[k] && ends[k + 1] == ends[k] + |l| <= |liked| && longer[ends[k]..ends[k] + |l|] == l
    {
      assert ids[k] in users && more[k] == ids[k];
      assert longer[at[k]..at[k + 1]] == liked[at[k]..at[k + 1]];
    }
  }

  lemma {:induction false} PlacesOf(users: map<nat, UserInfo>, ids: seq<nat>) returns (at: seq<nat>)
    requires LikedBy(users, ids).Ok?
    ensures LikedPlaces(users, ids, LikedBy(users, ids).value, at)
  {
    if ids == [] {
      at := [0];
    } else {
      var n := |ids| - 1;
      LikedSnoc(users, ids);
      at := PlacesOf(users, ids[..n]);
      PlacesSnoc(users, ids[..n], LikedBy(users, ids[..n]).value, at, ids[n]);
      assert ids == ids[..n] + [ids[n]];
      at := at + [|LikedBy(users, ids).value|];
    }
  }

  /** What LikedBy answers: an error exactly if some user is unknown, and otherwise the liked
      videos of user after user; those of ids[k] stand from place at[k] on. */
  lemma LikedAt(users: map<nat, UserInfo>, ids: seq<nat>) returns (at: seq<nat>)
    ensures LikedBy(users, ids).Ok? <==> forall k :: 0 <= k < |ids| ==> ids[k] in users
    ensures var r := LikedBy(users, ids);
            r.Ok? ==>
              && |at| == |ids| + 1 && at[0] == 0 && at[|ids|] == |r.value|
              && forall k {:trigger ids[k]} :: 0 <= k < |ids| ==>
                   var those := users[ids[k]].likedVideos;
                   at[k + 1] == at[k] + |those| <= |r.value| && r.value[at[k]..at[k] + |those|] == those
  {
    LookupOk(users, ids);
    if LikedBy(users, ids).Ok? {
      at := PlacesOf(users, ids);
    } else {
      at := [];
    }
  }

  lemma LikedSnoc(users: map<nat, UserInfo>, ids: seq<nat>)
    requires ids != [] && LikedBy(users, ids).Ok?
    ensures var n := |ids| - 1;
            && LikedBy(users, ids[..n]).Ok? && ids[n] in users
            && LikedBy(users, ids).value == LikedBy(users, ids[..n]).value + users[ids[n]].likedVideos
  {
    var n := |ids| - 1;
    var infos := LookupAll(users, ids).value;
    assert infos[..|infos| - 1] == LookupAll(users, ids[..n]).value;
  }

  /** A video is liked if one of the users likes it. */
  lemma {:induction false} LikedMembers(users: map<nat, UserInfo>, ids: seq<nat>)
    requires LikedBy(users, ids).Ok?
    ensures forall k :: 0 <= k < |ids| ==> ids[k] in users
    ensures forall x :: x in LikedBy(users, ids).value <==>
                        exists k, m :: && 0 <= k < |ids| && 0 <= m < |users[ids[k]].likedVideos|
                                       && users[ids[k]].likedVideos[m] == x
  {
    LookupOk(users, ids);
    if ids != [] {
      var n := |ids| - 1;
      LikedSnoc(users, ids);
      LikedMembers(users, ids[..n]);
      forall x ensures x in LikedBy(users, ids).value <==>
                       exists k, m :: && 0 <= k < |ids| && 0 <= m < |users[ids[k]].likedVideos|
                                      && users[ids[k]].likedVideos[m] == x
      {
        if x in LikedBy(users, ids[..n]).value {
          var k, m :| && 0 <= k < n && 0 <= m < |users[ids[..n][k]].likedVideos|
                      && users[ids[..n][k]].likedVideos[m] == x;
          assert users[ids[k]].likedVideos[m] == x;
        }
        if k, m :| && 0 <= k < |ids| && 0 <= m < |users[ids[k]].likedVideos|
                   && users[ids[k]].likedVideos[m] == x {
          if k < n {
            assert ids[..n][k] == ids[k];
          }
        }
      }
    }
  }

  method LikedOf(infos: seq<UserInfo>) returns (liked: seq<nat>)
    ensures liked == AllLiked(infos)
  {
    liked := [];
    for k := 0 to |infos|
      invariant liked == AllLiked(infos[..k])
    {
      assert infos[..k + 1][..k] == infos[..k];
      liked := liked + infos[k].likedVideos;
    }
    assert infos[..|infos|] == infos;
  }

  type Ranking = VideoInfo -> nat

  ghost predicate Descending(s: seq<VideoInfo>, rank: Ranking) {
    forall i, j :: 0 <= i < j < |s| ==> rank(s[i]) >= rank(s[j])
  }

  function Truncated(s: seq<VideoInfo>, limit: nat): seq<VideoInfo> {
    if limit != 0 && limit < |s| then s[..limit] else s
  }

  /** A rank-descending ordering of all of the candidates, cut off at the limit (0: none). */
  ghost predicate IsTop(result: seq<VideoInfo>, candidates: seq<VideoInfo>, limit: nat, rank: Ranking) {
    exists full :: multiset(full) == multiset(candidates) && Descending(full, rank) && result == Truncated(full, limit)
  }

  function Ranks(s: seq<VideoInfo>, rank: Ranking): seq<nat> {
    seq(|s|, i requires 0 <= i < |s| => rank(s[i]))
  }

  ghost predicate NonIncreasing(s: seq<nat>) {
    forall i, j :: 0 <= i < j < |s| ==> s[i] >= s[j]
  }

  lemma HeadIsGreatest(s: seq<nat>, x: nat)
    requires NonIncreasing(s) && x in multiset(s)
    ensures s != [] && s[0] >= x
  {
    assert x in s;
  }

  lemma DropHead(s: seq<nat>)
    requires s != []
    ensures multiset(s[1..]) == multiset(s) - multiset{s[0]}
    ensures NonIncreasing(s) ==> NonIncreasing(s[1..])
  {
    assert s == [s[0]] + s[1..];
  }

  lemma SameHead(s: seq<nat>, t: seq<nat>)
    requires multiset(s) == multiset(t) && NonIncreasing(s) && NonIncreasing(t) && s != []
    ensures t != [] && s[0] == t[0]
  {
    HeadIsGreatest(t, s[0]);
    HeadIsGreatest(s, t[0]);
  }

  lemma {:induction false} SortedUnique(s: seq<nat>, t: seq<nat>)
    requires multiset(s) == multiset(t) && NonIncreasing(s) && NonIncreasing(t)
    ensures s == t
  {
    if s == [] {
      assert |t| == |multiset(t)| == 0;
    } else {
      SameHead(s, t);
      DropHead(s);
      DropHead(t);
      SortedUnique(s[1..], t[1..]);
      assert s == [s[0]] + s[1..];
      assert t == [t[0]] + t[1..];
    }
  }

  function Without<T>(t: seq<T>, k: nat): seq<T>
    requires k < |t|
  {
    t[..k] + t[k + 1..]
  }

  lemma RemoveAt<T>(t: seq<T>, k: nat)
    requires k < |t|
    ensures multiset(Without(t, k)) == multiset(t) - multiset{t[k]}
  {
    assert t == t[..k] + [t[k]] + t[k + 1..];
  }

  lemma RanksRemoveAt(t: seq<VideoInfo>, k: nat, rank: Ranking)
    requires k < |t|
    ensures multiset(Ranks(t, rank)) == multiset(Ranks(Without(t, k), rank)) + multiset{rank(t[k])}
  {
    var r := Ranks(t, rank);
    assert r == r[..k] + [r[k]] + r[k + 1..];
    assert Ranks(Without(t, k), rank) == r[..k] + r[k + 1..];
  }

  lemma FindIn<T>(t: seq<T>, x: T) returns (k: nat)
    requires x in multiset(t)
    ensures k < |t| && t[k] == x
  {
    assert x in t;
    k :| k < |t| && t[k] == x;
  }

  lemma EmptyRanks(t: seq<VideoInfo>, rank: Ranking)
    requires multiset(t) == multiset{}
    ensures multiset(Ranks(t, rank)) == multiset{}
  {
    assert |t| == |multiset(t)| == 0;
  }

  lemma {:induction false} RanksPermute(s: seq<VideoInfo>, t: seq<VideoInfo>, rank: Ranking)
    requires multiset(s) == multiset(t)
    ensures multiset(Ranks(s, rank)) == multiset(Ranks(t, rank))
  {
    if s == [] {
      EmptyRanks(s, rank);
      EmptyRanks(t, rank);
    } else {
      assert s[0] in multiset(s);
      var k := FindIn(t, s[0]);
      RemoveAt(s, 0);
      RemoveAt(t, k);
      RanksPermute(Without(s, 0), Without(t, k), rank);
      RanksRemoveAt(s, 0, rank);
      RanksRemoveAt(t, k, rank);
    }
  }

  lemma DescendingRanks(s: seq<VideoInfo>, rank: Ranking)
    requires Descending(s, rank)
    ensures NonIncreasing(Ranks(s, rank))
  {
  }

  lemma TruncatedRanks(s: seq<VideoInfo>, limit: nat, rank: Ranking)
    ensures var r := Ranks(s, rank);
            Ranks(Truncated(s, limit), rank) == if limit != 0 && limit < |r| then r[..limit] else r
  {
  }

  /** The specification fixes the answer up to the order of ties: any two answers for the same
      candidates and limit show the same ranks in the same places. */
  lemma TopUniqueUpToTies(r1: seq<VideoInfo>, r2: seq<VideoInfo>, candidates: seq<VideoInfo>, limit: nat, rank: Ranking)
    requires IsTop(r1, candidates, limit, rank) && IsTop(r2, candidates, limit, rank)
    ensures Ranks(r1, rank) == Ranks(r2, rank)
  {
    var f1 :| multiset(f1) == multiset(candidates) && Descending(f1, rank) && r1 == Truncated(f1, limit);
    var f2 :| multiset(f2) == multiset(candidates) && Descending(f2, rank) && r2 == Truncated(f2, limit);
    RanksPermute(f1, f2, rank);
    DescendingRanks(f1, rank);
    DescendingRanks(f2, rank);
    SortedUnique(Ranks(f1, rank), Ranks(f2, rank));
    TruncatedRanks(f1, limit, rank);
    TruncatedRanks(f2, limit, rank);
  }

  // ---------- the answer in terms of ids ----------

  ghost predicate Entries(db: map<nat, VideoInfo>, ids: seq<nat>, infos: seq<VideoInfo>) {
    |infos| == |ids| && forall i :: 0 <= i < |ids| ==> ids[i] in db && infos[i] == db[ids[i]]
  }

  lemma EntriesWithout(db: map<nat, VideoInfo>, ids: seq<nat>, infos: seq<VideoInfo>, k: nat)
    requires Entries(db, ids, infos) && k < |ids|
    ensures Entries(db, Without(ids, k), Without(infos, k)) && ids[k] in db && infos[k] == db[ids[k]]
  {
  }

  lemma EntriesCons(db: map<nat, VideoInfo>, id: nat, ids: seq<nat>, info: VideoInfo, infos: seq<VideoInfo>)
    requires Entries(db, ids, infos) && id in db && info == db[id]
    ensures Entries(db, [id] + ids, [info] + infos)
  {
  }

  lemma DropBoth<T>(s: seq<T>, i: nat, t: seq<T>, k: nat)
    requires multiset(s) == multiset(t) && i < |s| && k < |t| && s[i] == t[k]
    ensures multiset(Without(s, i)) == multiset(Without(t, k))
  {
    RemoveAt(s, i);
    RemoveAt(t, k);
  }

  lemma AddBack<T>(s: seq<T>, k: nat, rest: seq<T>)
    requires k < |s| && multiset(rest) == multiset(Without(s, k))
    ensures multiset([s[k]] + rest) == multiset(s)
  {
    RemoveAt(s, k);
    assert s[k] in multiset(s);
  }

  lemma SameLength<T>(s: seq<T>, t: seq<T>)
    requires multiset(s) == multiset(t)
    ensures |s| == |t|
  {
    assert |s| == |multiset(s)| == |multiset(t)| == |t|;
  }

  /** A permutation of the entries of some ids is the entries of a permutation of those ids. */
  lemma {:induction false} PermuteIds(db: map<nat, VideoInfo>, d: seq<nat>, infos: seq<VideoInfo>, full: seq<VideoInfo>)
    returns (ids: seq<nat>)
    requires Entries(db, d, infos) && multiset(full) == multiset(infos)
    ensures Entries(db, ids, full) && multiset(ids) == multiset(d)
  {
    SameLength(full, infos);
    if full == [] {
      ids := [];
    } else {
      assert full[0] in multiset(infos);
      var k := FindIn(infos, full[0]);
      DropBoth(full, 0, infos, k);
      EntriesWithout(db, d, infos, k);
      var rest := PermuteIds(db, Without(d, k), Without(infos, k), Without(full, 0));
      EntriesCons(db, d[k], rest, full[0], Without(full, 0));
      assert full == [full[0]] + Without(full, 0);
      AddBack(d, k, rest);
      ids := [d[k]] + rest;
    }
  }

  lemma {:induction false} OnceEach(s: seq<nat>, x: nat)
    requires Distinct(s)
    ensures multiset(s)[x] <= 1
  {
    if s != [] {
      OnceEach(s[1..], x);
      assert s == [s[0]] + s[1..];
      assert s[0] !in s[1..];
    }
  }

  lemma DistinctPermuted(s: seq<nat>, t: seq<nat>)
    requires multiset(s) == multiset(t) && Distinct(s)
    ensures Distinct(t) && forall x :: x in t <==> x in s
  {
    forall i, j | 0 <= i < j < |t| ensures t[i] != t[j] {
      OnceEach(s, t[i]);
      assert t == t[..i] + [t[i]] + t[i + 1..j] + [t[j]] + t[j + 1..];
    }
    forall x ensures x in t <==> x in s {
      assert x in multiset(t) <==> x in multiset(s);
    }
  }

  /** The top of the entries of distinct ids, in terms of the ids. */
  lemma TopIds(db: map<nat, VideoInfo>, d: seq<nat>, top: seq<VideoInfo>, limit: nat, rank: Ranking)
    returns (ids: seq<nat>)
    requires Distinct(d) && LookupAll(db, d).Ok? && IsTop(top, LookupAll(db, d).value, limit, rank)
    ensures Distinct(ids) && forall x :: x in ids <==> x in d
    ensures forall i :: 0 <= i < |ids| ==> ids[i] in db
    ensures forall i, j :: 0 <= i < j < |ids| ==> rank(db[ids[i]]) >= rank(db[ids[j]])
    ensures |top| == if limit == 0 || |ids| <= limit then |ids| else limit
    ensures forall i :: 0 <= i < |top| ==> top[i] == db[ids[i]]
  {
    LookupOk(db, d);
    var infos := LookupAll(db, d).value;
    var full :| multiset(full) == multiset(infos) && Descending(full, rank) && top == Truncated(full, limit);
    ids := PermuteIds(db, d, infos, full);
    DistinctPermuted(d, ids);
    DescendingIds(db, ids, full, rank);
    TruncatedIds(db, ids, full, limit);
  }

  lemma DescendingIds(db: map<nat, VideoInfo>, ids: seq<nat>, full: seq<VideoInfo>, rank: Ranking)
    requires Entries(db, ids, full) && Descending(full, rank)
    ensures forall i :: 0 <= i < |ids| ==> ids[i] in db
    ensures forall i, j :: 0 <= i < j < |ids| ==> rank(db[ids[i]]) >= rank(db[ids[j]])
  {
    forall i, j | 0 <= i < j < |ids| ensures rank(db[ids[i]]) >= rank(db[ids[j]]) {
      assert rank(full[i]) >= rank(full[j]);
    }
  }

  lemma TruncatedIds(db: map<nat, VideoInfo>, ids: seq<nat>, full: seq<VideoInfo>, limit: nat)
    requires Entries(db, ids, full)
    ensures var top := Truncated(full, limit);
            && |top| == (if limit == 0 || |ids| <= limit then |ids| else limit)
            && forall i :: 0 <= i < |top| ==> ids[i] in db && top[i] == db[ids[i]]
  {
  }

  // ---------- failures ----------

  /** No RPC failed on its first attempt and again on its retry, among attempts from..to. */
  predicate NoDoubleFault(inject: nat -> bool, from: nat, to: nat) {
    forall k :: from <= k && k + 1 < to ==> !(inject(k) && inject(k + 1))
  }

  /** The last attempt before to, if there was one since from, did not fail. */
  predicate Settled(inject: nat -> bool, from: nat, to: nat) {
    from <= to && NoDoubleFault(inject, from, to) && (to > from ==> !inject(to - 1))
  }

  lemma Join(inject: nat -> bool, a: nat, b: nat, c: nat)
    requires Settled(inject, a, b) && Settled(inject, b, c)
    ensures Settled(inject, a, c)
  {
  }

  predicate NoFault(inject: nat -> bool, from: nat, to: nat) {
    forall k :: from <= k < to ==> !inject(k)
  }

  predicate DoubleFaultAtEnd(inject: nat -> bool, from: nat, to: nat) {
    to >= from + 2 && inject(to - 2) && inject(to - 1)
  }

  // ---------- what the failures decide ----------

  function Min(a: nat, b: nat): nat {
    if a < b then a else b
  }

  /** Whether some RPCs all succeeded, and how many attempts had been made by then. */
  datatype Outcome = Outcome(ok: bool, at: nat)

  /** b RPCs that only injected failures can fail, one after another from attempt t on, until one
      is given up. */
  function Sends(inject: nat -> bool, retry: bool, t: nat, b: nat): Outcome
    decreases b
  {
    if b == 0 then Outcome(true, t)
    else if !inject(t) then Sends(inject, retry, t + 1, b - 1)
    else if !retry then Outcome(false, t + 1)
    else if inject(t + 1) then Outcome(false, t + 2)
    else Sends(inject, retry, t + 2, b - 1)
  }

  lemma {:induction false} SendsSucceed(inject: nat -> bool, retry: bool, t: nat, b: nat)
    ensures var out := Sends(inject, retry, t, b);
            && t <= out.at
            && (retry ==> (out.ok <==> NoDoubleFault(inject, t, out.at)))
            && (!retry ==> (out.ok <==> NoFault(inject, t, t + b)))
            && (out.ok ==> Settled(inject, t, out.at))
    decreases b
  {
    if b > 0 {
      if !inject(t) {
        SendsSucceed(inject, retry, t + 1, b - 1);
      } else if retry && !inject(t + 1) {
        SendsSucceed(inject, retry, t + 2, b - 1);
      }
    }
  }

  /** fails are the attempts that failed. Every other attempt is a success, and there are b of
      them exactly if all RPCs succeeded; otherwise the last attempt failed. */
  lemma {:induction false} SendsCount(inject: nat -> bool, retry: bool, t: nat, b: nat) returns (fails: set<nat>)
    ensures var out := Sends(inject, retry, t, b);
            && (forall k :: k in fails <==> t <= k < out.at && inject(k))
            && (if out.ok then out.at == t + |fails| + b
                else t < out.at < t + |fails| + b && inject(out.at - 1))
    decreases b
  {
    if b == 0 {
      fails := {};
    } else if !inject(t) {
      fails := SendsCount(inject, retry, t + 1, b - 1);
    } else if !retry {
      fails := {t};
    } else if inject(t + 1) {
      fails := {t, t + 1};
      assert |fails| == 2;
    } else {
      var rest := SendsCount(inject, retry, t + 2, b - 1);
      assert t !in rest;
      fails := {t} + rest;
      assert |fails| == 1 + |rest|;
    }
  }

  lemma SendOne(inject: nat -> bool, retry: bool, t: nat)
    ensures Sends(inject, retry, t, 1) ==
            if !inject(t) then Outcome(true, t + 1)
            else if !retry then Outcome(false, t + 1)
            else Outcome(!inject(t + 1), t + 2)
  {
    assert Sends(inject, retry, t + 1, 0) == Outcome(true, t + 1);
    assert Sends(inject, retry, t + 2, 0) == Outcome(true, t + 2);
  }

  lemma SendsFirst(inject: nat -> bool, retry: bool, t: nat, b: nat)
    requires b > 0
    ensures var one := Sends(inject, retry, t, 1);
            Sends(inject, retry, t, b) == if one.ok then Sends(inject, retry, one.at, b - 1) else one
  {
    SendOne(inject, retry, t);
  }

  /** A loop has total batches to send from attempt from on, and now has left more to go. */
  ghost predicate OnCourse(inject: nat -> bool, retry: bool, from: nat, total: nat, now: nat, left: nat) {
    Sends(inject, retry, now, left) == Sends(inject, retry, from, total)
  }

  /** retried: some first attempt has failed. */
  ghost predicate RetriedSoFar(inject: nat -> bool, from: nat, total: nat, now: nat, left: nat, retried: bool) {
    if retried then !NoFault(inject, from, from + total)
    else now + left == from + total && NoFault(inject, from, now)
  }

  /** The batches that a loop over n ids sends. */
  function Batches(n: nat, size: nat): nat
    requires size > 0
  {
    if n == 0 then 0 else if n <= size then 1 else 1 + Batches(n - size, size)
  }

  /** As few batches as can hold n ids. */
  lemma {:induction false} BatchCount(n: nat, size: nat)
    requires size > 0
    ensures n <= Batches(n, size) * size < n + size
  {
    if n > size {
      BatchCount(n - size, size);
    }
  }

  lemma NextBatch(n: nat, size: nat, i: nat)
    requires size > 0 && i < n
    ensures Batches(n - i, size) == 1 + Batches(n - Min(i + size, n), size)
  {
  }

  lemma NextOnCourse(inject: nat -> bool, retry: bool, from: nat, total: nat, now: nat, n: nat, size: nat, i: nat)
    requires size > 0 && i < n && OnCourse(inject, retry, from, total, now, Batches(n - i, size))
    ensures var one := Sends(inject, retry, now, 1);
            if one.ok then OnCourse(inject, retry, from, total, one.at, Batches(n - Min(i + size, n), size))
            else Sends(inject, retry, from, total) == one
  {
    NextBatch(n, size, i);
    SendsFirst(inject, retry, now, Batches(n - i, size));
  }

  lemma NextRetries(inject: nat -> bool, from: nat, total: nat, now: nat, n: nat, size: nat, i: nat, retried: bool)
    requires size > 0 && i < n && from <= now
    requires RetriedSoFar(inject, from, total, now, Batches(n - i, size), retried)
    ensures inject(now) ==> !NoFault(inject, from, from + total)
    ensures !inject(now) ==> RetriedSoFar(inject, from, total, now + 1, Batches(n - Min(i + size, n), size), retried)
  {
    NextBatch(n, size, i);
  }

  /** The user's own RPC and those for u batches of users: the subscribed-to loop retries
      whatever the options say. */
  function Gathering(inject: nat -> bool, disableRetry: bool, t: nat, u: nat): Outcome {
    var own := Sends(inject, !disableRetry, t, 1);
    if !own.ok then own else Sends(inject, true, own.at, u)
  }

  /** And those for v batches of videos: a whole request. */
  function Delivery(inject: nat -> bool, disableRetry: bool, t: nat, u: nat, v: nat): Outcome {
    var gathered := Gathering(inject, disableRetry, t, u);
    if !gathered.ok then gathered else Sends(inject, !disableRetry, gathered.at, v)
  }

  /** fails are the attempts of the RPCs for users that failed, and all of them succeeded exactly
      if there are as many other attempts as RPCs. */
  lemma GatheringCount(inject: nat -> bool, disableRetry: bool, t: nat, u: nat) returns (fails: set<nat>)
    ensures var out := Gathering(inject, disableRetry, t, u);
            && (forall k :: k in fails <==> t <= k < out.at && inject(k))
            && (if out.ok then out.at == t + |fails| + 1 + u
                else t < out.at < t + |fails| + 1 + u && inject(out.at - 1))
  {
    var own := Sends(inject, !disableRetry, t, 1);
    fails := SendsCount(inject, !disableRetry, t, 1);
    if own.ok {
      var more := SendsCount(inject, true, own.at, u);
      assert fails !! more;
      fails := fails + more;
    }
  }

  /** The same for all RPCs of a request. */
  lemma DeliveryCount(inject: nat -> bool, disableRetry: bool, t: nat, u: nat, v: nat) returns (fails: set<nat>)
    ensures var out := Delivery(inject, disableRetry, t, u, v);
            && (forall k :: k in fails <==> t <= k < out.at && inject(k))
            && (if out.ok then out.at == t + |fails| + 1 + u + v
                else t < out.at < t + |fails| + 1 + u + v && inject(out.at - 1))
  {
    var gathered := Gathering(inject, disableRetry, t, u);
    fails := GatheringCount(inject, disableRetry, t, u);
    if gathered.ok {
      var more := SendsCount(inject, !disableRetry, gathered.at, v);
      assert fails !! more;
      fails := fails + more;
    }
  }

  /** With retries a request succeeds if and only if no RPC fails twice. */
  lemma DeliveredWithRetries(inject: nat -> bool, t: nat, u: nat, v: nat)
    ensures var out := Delivery(inject, false, t, u, v);
            && t <= out.at
            && (out.ok <==> forall k :: t <= k && k + 1 < out.at ==> !(inject(k) && inject(k + 1)))
  {
    var own := Sends(inject, true, t, 1);
    var liked := Sends(inject, true, own.at, u);
    SendsSucceed(inject, true, t, 1);
    SendsSucceed(inject, true, own.at, u);
    SendsSucceed(inject, true, liked.at, v);
    if own.ok && liked.ok {
      Join(inject, t, own.at, liked.at);
      if Sends(inject, true, liked.at, v).ok {
        Join(inject, t, liked.at, Sends(inject, true, liked.at, v).at);
      }
    }
  }

  /** With retries disabled: the subscribed-to loop is reached, and some first attempt of it fails.
      known says whether all users that it asks for exist. */
  ghost predicate RetriesAnyway(inject: nat -> bool, known: bool, t: nat, u: nat) {
    !inject(t) && (!known || !NoFault(inject, t + 1, t + 1 + u))
  }

  /** With retries disabled a request succeeds if and only if its first RPC does not fail, no RPC
      of the subscribed-to loop fails twice, and no RPC for videos fails at all. */
  lemma DeliveredWithoutRetries(inject: nat -> bool, t: nat, u: nat, v: nat)
    ensures var mid := Sends(inject, true, t + 1, u).at;
            Delivery(inject, true, t, u, v).ok <==>
            && !inject(t)
            && (forall k :: t + 1 <= k && k + 1 < mid ==> !(inject(k) && inject(k + 1)))
            && (forall k :: mid <= k < mid + v ==> !inject(k))
  {
    SendsSucceed(inject, true, t + 1, u);
    SendsSucceed(inject, false, Sends(inject, true, t + 1, u).at, v);
    assert Sends(inject, false, t, 1) == Outcome(!inject(t), t + 1);
  }

  /** Retries disabled, and yet user 0's request is answered only because the RPC for the one
      user it is subscribed to is attempted twice. */
  lemma RetriesThoughDisabled()
    ensures var users := map[0 := UserInfo(0, [1], map[], []), 1 := UserInfo(1, [], map[], [])];
            Candidates(users, map[], 0) == Ok([]) && Batches(|users[0].subscribedTo|, 1) == 1
    ensures var inject := (k: nat) => k == 1;
            RetriesAnyway(inject, true, 0, 1) && Delivery(inject, true, 0, 1, 0) == Outcome(true, 3)
  {
    OneUser();
    DeliveryExample((k: nat) => k == 1);
  }

  /** And one without any failure: the RPC for a user that does not exist is attempted twice. */
  lemma RetriesForUnknown()
    ensures var users := map[0 := UserInfo(0, [9], map[], [])];
            LikedBy(users, users[0].subscribedTo).Err? && RetriesAnyway(_ => false, false, 0, 1)
  {
    var users := map[0 := UserInfo(0, [9], map[], [])];
    LookupOk(users, users[0].subscribedTo);
    assert users[0].subscribedTo[0] !in users;
  }

  lemma OneUser()
    ensures var users := map[0 := UserInfo(0, [1], map[], []), 1 := UserInfo(1, [], map[], [])];
            Candidates(users, map[], 0) == Ok([])
  {
    var users := map[0 := UserInfo(0, [1], map[], []), 1 := UserInfo(1, [], map[], [])];
    var infos := [users[1]];
    var ids := users[0].subscribedTo;
    LookupOk(users, ids);
    assert LookupAll(users, ids).value == infos;
    assert infos[..0] == [];
    assert AllLiked(infos) == [];
  }

  lemma DeliveryExample(inject: nat -> bool)
    requires forall k: nat :: inject(k) == (k == 1)
    ensures RetriesAnyway(inject, true, 0, 1) && Delivery(inject, true, 0, 1, 0) == Outcome(true, 3)
  {
    SendOne(inject, false, 0);
    SendOne(inject, true, 1);
    assert inject(1);
  }

  // ---------- sorting ----------

  function Insert(x: VideoInfo, s: seq<VideoInfo>, rank: Ranking): seq<VideoInfo> {
    if s == [] || rank(x) >= rank(s[0]) then [x] + s else [s[0]] + Insert(x, s[1..], rank)
  }

  lemma {:induction false} InsertAdds(x: VideoInfo, s: seq<VideoInfo>, rank: Ranking)
    ensures multiset(Insert(x, s, rank)) == multiset(s) + multiset{x}
  {
    if s != [] && rank(x) < rank(s[0]) {
      InsertAdds(x, s[1..], rank);
      assert s == [s[0]] + s[1..];
    }
  }

  lemma DescendingCons(x: VideoInfo, s: seq<VideoInfo>, rank: Ranking)
    requires Descending(s, rank) && forall v :: v in multiset(s) ==> rank(x) >= rank(v)
    ensures Descending([x] + s, rank)
  {
    var t := [x] + s;
    forall i, j | 0 <= i < j < |t| ensures rank(t[i]) >= rank(t[j]) {
      assert t[j] == s[j - 1] && s[j - 1] in multiset(s);
    }
  }

  lemma {:induction false} InsertSorts(x: VideoInfo, s: seq<VideoInfo>, rank: Ranking)
    requires Descending(s, rank)
    ensures Descending(Insert(x, s, rank), rank)
  {
    if s != [] && rank(x) < rank(s[0]) {
      InsertSorts(x, s[1..], rank);
      InsertAdds(x, s[1..], rank);
      DescendingCons(s[0], Insert(x, s[1..], rank), rank);
    } else {
      DescendingCons(x, s, rank);
    }
  }

  function InsertionSort(s: seq<VideoInfo>, rank: Ranking): seq<VideoInfo> {
    if s == [] then [] else Insert(s[0], InsertionSort(s[1..], rank), rank)
  }

  lemma {:induction false} InsertionSortSorts(s: seq<VideoInfo>, rank: Ranking)
    ensures Descending(InsertionSort(s, rank), rank) && multiset(InsertionSort(s, rank)) == multiset(s)
  {
    if s != [] {
      InsertionSortSorts(s[1..], rank);
      InsertSorts(s[0], InsertionSort(s[1..], rank), rank);
      InsertAdds(s[0], InsertionSort(s[1..], rank), rank);
      assert s == [s[0]] + s[1..];
    }
  }

  /** rankMap[v] in Go: 0 for a missing key. */
  function Entry(ranks: map<VideoInfo, nat>): Ranking {
    v => if v in ranks then ranks[v] else 0
  }

  /** slices.SortFunc: callers know only that the array is sorted in place and permuted. */
  method SortFunc(a: array<VideoInfo>, ranks: map<VideoInfo, nat>)
    modifies a
    ensures Descending(a[..], Entry(ranks)) && multiset(a[..]) == multiset(old(a[..]))
  {
    var s := InsertionSort(a[..], Entry(ranks));
    InsertionSortSorts(a[..], Entry(ranks));
    assert |s| == |multiset(s)| == |multiset(a[..])| == a.Length;
    forall i | 0 <= i < a.Length {
      a[i] := s[i];
    }
    assert a[..] == s;
  }

  // ---------- the server ----------

  ghost function RankFor(hashing: Ranker.Hashing, user: Ranker.Coeffs): Ranking {
    (v: VideoInfo) => Ranker.RankOf(hashing, user, v.coeffs)
  }

  /** An error that an honest batch can meet; the others mean the batch itself was refused. */
  predicate Acceptable(e: RpcError) {
    e == Injected || e.NotFound?
  }

  /** The errors that came after before are all acceptable. */
  ghost predicate AllAcceptable(before: seq<RpcError>, after: seq<RpcError>) {
    before <= after && forall i :: |before| <= i < |after| ==> Acceptable(after[i])
  }

  lemma BatchFits(ids: seq<nat>, i: nat, end: nat, batch: nat)
    requires i < |ids| && end == Min(i + batch, |ids|)
    ensures |ids[i..end]| <= batch && (batch > 0 ==> |ids[i..end]| > 0)
    ensures Distinct(ids) ==> Distinct(ids[i..end])
  {
  }

  method GetVideoRanks(hashing: Ranker.Hashing, coeffs: Ranker.Coeffs, infos: array<VideoInfo>)
    returns (ranks: map<VideoInfo, nat>)
    ensures ranks.Keys == set v | v in infos[..]
    ensures forall v :: v in ranks ==> ranks[v] == Ranker.RankOf(hashing, coeffs, v.coeffs)
  {
    ranks := map[];
    for k := 0 to infos.Length
      invariant ranks.Keys == set v | v in infos[..k]
      invariant forall v :: v in ranks ==> ranks[v] == Ranker.RankOf(hashing, coeffs, v.coeffs)
    {
      assert infos[..k + 1] == infos[..k] + [infos[k]];
      var rank := Ranker.Rank(hashing, coeffs, infos[k].coeffs);
      ranks := ranks[infos[k] := rank];
    }
    assert infos[..infos.Length] == infos[..];
  }

  /** What is the top depends only on which candidates there are, not on their order. */
  lemma IsTopPermuted(top: seq<VideoInfo>, s: seq<VideoInfo>, t: seq<VideoInfo>, limit: nat, rank: Ranking)
    requires IsTop(top, s, limit, rank) && multiset(s) == multiset(t)
    ensures IsTop(top, t, limit, rank)
  {
    var full :| multiset(full) == multiset(s) && Descending(full, rank) && top == Truncated(full, limit);
    assert multiset(full) == multiset(t);
  }

  lemma DescendingAgree(s: seq<VideoInfo>, r1: Ranking, r2: Ranking)
    requires Descending(s, r1) && forall v :: v in s ==> r1(v) == r2(v)
    ensures Descending(s, r2)
  {
  }

  method ArrayOf(s: seq<VideoInfo>) returns (a: array<VideoInfo>)
    ensures fresh(a) && a[..] == s
  {
    a := new VideoInfo[|s|](i requires 0 <= i < |s| => s[i]);
  }

  /** Ranks, sorts in place and cuts off: the end of GetTopVideos. */
  method RankSortCut(hashing: Ranker.Hashing, coeffs: Ranker.Coeffs, infos: array<VideoInfo>, limit: nat)
    returns (top: seq<VideoInfo>)
    modifies infos
    ensures IsTop(top, old(infos[..]), limit, RankFor(hashing, coeffs))
    ensures multiset(infos[..]) == multiset(old(infos[..])) && Descending(infos[..], RankFor(hashing, coeffs))
    ensures top == Truncated(infos[..], limit)
  {
    var ranks := GetVideoRanks(hashing, coeffs, infos);
    ghost var before := infos[..];
    SortFunc(infos, ranks);
    forall v | v in infos[..] ensures Entry(ranks)(v) == RankFor(hashing, coeffs)(v) {
      assert v in multiset(infos[..]) && v in multiset(before) && v in before;
    }
    DescendingAgree(infos[..], Entry(ranks), RankFor(hashing, coeffs));
    top := Truncated(infos[..], limit);
  }

  class Server {
    const options: Options
    const users: UserService
    const videos: VideoService
    const hashing: Ranker.Hashing
    const inject: nat -> bool

    var attempts: nat
    var topVideos: array<VideoInfo>
    var totalRequests: nat
    var totalErrors: nat
    var userServiceErrors: nat
    var videoServiceErrors: nat
    var staleResponses: nat

    /** Every error a backend has answered, in order. */
    ghost var errors: seq<RpcError>

    /** RPCs that were attempted a second time. */
    ghost var retries: nat

    constructor (options: Options, users: UserService, videos: VideoService,
                 hashing: Ranker.Hashing, inject: nat -> bool)
      ensures this.options == options && this.users == users && this.videos == videos
      ensures this.hashing == hashing && this.inject == inject && attempts == 0
      ensures fresh(topVideos) && topVideos.Length == 0
      ensures totalRequests == totalErrors == userServiceErrors == videoServiceErrors == staleResponses == 0
    {
      this.options, this.users, this.videos, this.hashing, this.inject := options, users, videos, hashing, inject;
      attempts, errors, retries := 0, [], 0;
      topVideos := new VideoInfo[0](_ => VideoInfo(0, map[]));
      totalRequests, totalErrors, userServiceErrors, videoServiceErrors, staleResponses := 0, 0, 0, 0, 0;
    }

    /** The batch size is positive and neither backend's limit is below it. */
    ghost predicate SizesFit() {
      0 < options.maxBatchSize <= users.maxBatchSize && options.maxBatchSize <= videos.maxBatchSize
    }

    method CallUser(ids: seq<nat>, retry: bool) returns (r: Result<seq<UserInfo>, RpcError>)
      modifies `attempts, `errors, `retries
      ensures var first := UserReply(users.users, users.maxBatchSize, ids, inject(old(attempts)));
              && attempts == old(attempts) + (if retry && first.Err? then 2 else 1)
              && retries == old(retries) + (if retry && first.Err? then 1 else 0)
              && (!retry ==> r == first) && (r.Err? ==> first.Err?)
      ensures r.Ok? ==> ids != [] && r == LookupAll(users.users, ids) && Settled(inject, old(attempts), attempts)
      ensures r.Err? && r.error != Injected ==> r == UserReply(users.users, users.maxBatchSize, ids, false)
      ensures r.Err? && retry && UserReply(users.users, users.maxBatchSize, ids, false).Ok? ==>
                DoubleFaultAtEnd(inject, old(attempts), attempts)
      ensures r.Err? ==> errors != [] && errors[|errors| - 1] == r.error
      ensures old(errors) <= errors
      ensures 0 < |ids| <= users.maxBatchSize ==> AllAcceptable(old(errors), errors)
    {
      LookupOk(users.users, ids);
      r := users.GetUser(ids, inject(attempts));
      attempts := attempts + 1;
      if r.Err? {
        errors := errors + [r.error];
        if retry {
          r := users.GetUser(ids, inject(attempts));
          attempts, retries := attempts + 1, retries + 1;
          if r.Err? {
            errors := errors + [r.error];
          }
        }
      }
    }

    method CallVideo(ids: seq<nat>, retry: bool) returns (r: Result<seq<VideoInfo>, RpcError>)
      modifies `attempts, `errors, `retries
      ensures var first := VideoReply(videos.videos, videos.maxBatchSize, ids, inject(old(attempts)));
              && attempts == old(attempts) + (if retry && first.Err? then 2 else 1)
              && retries == old(retries) + (if retry && first.Err? then 1 else 0)
              && (!retry ==> r == first)
      ensures r.Ok? ==> ids != [] && r == LookupAll(videos.videos, ids) && Settled(inject, old(attempts), attempts)
      ensures r.Err? && r.error != Injected ==> r == VideoReply(videos.videos, videos.maxBatchSize, ids, false)
      ensures r.Err? && retry && VideoReply(videos.videos, videos.maxBatchSize, ids, false).Ok? ==>
                DoubleFaultAtEnd(inject, old(attempts), attempts)
      ensures r.Err? ==> errors != [] && errors[|errors| - 1] == r.error
      ensures old(errors) <= errors
      ensures 0 < |ids| <= videos.maxBatchSize && Distinct(ids) ==> AllAcceptable(old(errors), errors)
    {
      LookupOk(videos.videos, ids);
      r := videos.GetVideo(ids, inject(attempts));
      attempts := attempts + 1;
      if r.Err? {
        errors := errors + [r.error];
        if retry {
          r := videos.GetVideo(ids, inject(attempts));
          attempts, retries := attempts + 1, retries + 1;
          if r.Err? {
            errors := errors + [r.error];
          }
        }
      }
    }

    /** One round of the subscribed-to loop. It retries even when retries are disabled. */
    method CallLiked(ids: seq<nat>) returns (r: Result<seq<nat>, RpcError>)
      modifies `attempts, `errors, `retries
      ensures attempts > old(attempts)
      ensures r.Ok? ==> ids != [] && r == LikedBy(users.users, ids) && Settled(inject, old(attempts), attempts)
      ensures r.Err? && 0 < |ids| <= users.maxBatchSize && LikedBy(users.users, ids).Ok? ==>
                DoubleFaultAtEnd(inject, old(attempts), attempts)
      ensures 0 < |ids| <= users.maxBatchSize && LikedBy(users.users, ids).Ok? ==>
                && Sends(inject, true, old(attempts), 1) == Outcome(r.Ok?, attempts)
                && retries == old(retries) + (if inject(old(attempts)) then 1 else 0)
      ensures retries >= old(retries) && (r.Err? ==> retries > old(retries))
      ensures r.Err? ==> errors != [] && errors[|errors| - 1] == r.error
      ensures old(errors) <= errors
      ensures 0 < |ids| <= users.maxBatchSize ==> AllAcceptable(old(errors), errors)
    {
      LookupOk(users.users, ids);
      var reply := CallUser(ids, true);
      if reply.Err? {
        return Err(reply.error);
      }
      var liked := LikedOf(reply.value);
      r := Ok(liked);
    }

    ghost predicate UsersKnown(ids: seq<nat>) {
      SizesFit() && LikedBy(users.users, ids).Ok?
    }

    /** Where the subscribed-to loop stands when it has come to ids[i]: it began at attempt from,
        now is the next attempt, and retried says whether some first attempt has failed. */
    ghost predicate LikedSoFar(ids: seq<nat>, i: nat, liked: seq<nat>, from: nat, now: nat, retried: bool) {
      && from <= now
      && LikedBy(users.users, ids[..Min(i, |ids|)]) == Ok(liked)
      && Settled(inject, from, now)
      && (UsersKnown(ids) ==>
            var total := Batches(|ids|, options.maxBatchSize);
            var left := Batches(|ids| - Min(i, |ids|), options.maxBatchSize);
            && OnCourse(inject, true, from, total, now, left)
            && RetriedSoFar(inject, from, total, now, left, retried))
    }

    /** What one more RPC means for the plan of the whole loop. */
    lemma LikedPlan(ids: seq<nat>, i: nat, liked: seq<nat>, from: nat, now: nat, retried: bool)
      requires i < |ids| && LikedSoFar(ids, i, liked, from, now, retried) && UsersKnown(ids)
      ensures var total := Batches(|ids|, options.maxBatchSize);
              var left := Batches(|ids| - Min(i + options.maxBatchSize, |ids|), options.maxBatchSize);
              var one := Sends(inject, true, now, 1);
              if one.ok then
                && OnCourse(inject, true, from, total, one.at, left)
                && RetriedSoFar(inject, from, total, one.at, left, retried || inject(now))
              else
                && Sends(inject, true, from, total) == one
                && inject(now) && !NoFault(inject, from, from + total)
    {
      var total := Batches(|ids|, options.maxBatchSize);
      SendOne(inject, true, now);
      NextOnCourse(inject, true, from, total, now, |ids|, options.maxBatchSize, i);
      NextRetries(inject, from, total, now, |ids|, options.maxBatchSize, i, retried);
    }

    /** One round of the subscribed-to loop. */
    method LikedRound(ids: seq<nat>, i: nat, liked: seq<nat>, ghost from: nat, ghost before: nat)
      returns (r: Result<seq<nat>, RpcError>)
      requires i < |ids| && before <= retries && LikedSoFar(ids, i, liked, from, attempts, retries > before)
      modifies `attempts, `errors, `retries
      ensures from <= attempts && before <= retries && (r.Err? ==> retries > before)
      ensures r.Ok? ==>
                && options.maxBatchSize > 0
                && LikedSoFar(ids, i + options.maxBatchSize, r.value, from, attempts, retries > before)
      ensures r.Err? && UsersKnown(ids) ==>
                var total := Batches(|ids|, options.maxBatchSize);
                && Sends(inject, true, from, total) == Outcome(false, attempts)
                && retries > before && !NoFault(inject, from, from + total)
                && !NoDoubleFault(inject, from, attempts)
      ensures r.Err? ==> errors != [] && errors[|errors| - 1] == r.error
      ensures old(errors) <= errors && (SizesFit() ==> AllAcceptable(old(errors), errors))
    {
      var end := if i + options.maxBatchSize > |ids| then |ids| else i + options.maxBatchSize;
      BatchFits(ids, i, end, options.maxBatchSize);
      LikedBatch(users.users, ids, i, end);
      ghost var start := attempts;
      if UsersKnown(ids) {
        LikedPlan(ids, i, liked, from, start, retries > before);
      }
      var reply := CallLiked(ids[i..end]);
      if reply.Err? {
        return Err(reply.error);
      }
      Join(inject, from, start, attempts);
      r := Ok(liked + reply.value);
    }

    /** The subscribed-to loop. */
    method FetchLiked(ids: seq<nat>) returns (r: Result<seq<nat>, RpcError>)
      modifies `attempts, `errors, `retries
      ensures attempts >= old(attempts) && retries >= old(retries) && (r.Err? ==> retries > old(retries))
      ensures r.Ok? ==> r == LikedBy(users.users, ids) && Settled(inject, old(attempts), attempts)
      ensures r.Err? && SizesFit() && LikedBy(users.users, ids).Ok? ==> !NoDoubleFault(inject, old(attempts), attempts)
      ensures UsersKnown(ids) ==>
                var b := Batches(|ids|, options.maxBatchSize);
                && Sends(inject, true, old(attempts), b) == Outcome(r.Ok?, attempts)
                && (retries > old(retries) <==> !NoFault(inject, old(attempts), old(attempts) + b))
      ensures r.Err? ==> errors != [] && errors[|errors| - 1] == r.error
      ensures old(errors) <= errors && (SizesFit() ==> AllAcceptable(old(errors), errors))
    {
      var liked := [];
      var i := 0;
      while i < |ids|
        invariant old(retries) <= retries && LikedSoFar(ids, i, liked, old(attempts), attempts, retries > old(retries))
        invariant old(errors) <= errors && (SizesFit() ==> AllAcceptable(old(errors), errors))
        decreases |ids| - i
      {
        var reply := LikedRound(ids, i, liked, old(attempts), old(retries));
        if reply.Err? {
          return Err(reply.error);
        }
        liked := reply.value;
        i := i + options.maxBatchSize;
      }
      assert ids[..|ids|] == ids;
      r := Ok(liked);
    }

    ghost predicate VideosKnown(ids: seq<nat>) {
      SizesFit() && Distinct(ids) && LookupAll(videos.videos, ids).Ok?
    }

    /** Where the GetVideo loop stands when it has come to ids[i]. */
    ghost predicate InfosSoFar(ids: seq<nat>, i: nat, infos: seq<VideoInfo>, from: nat, now: nat) {
      && from <= now
      && LookupAll(videos.videos, ids[..Min(i, |ids|)]) == Ok(infos)
      && Settled(inject, from, now)
      && (options.disableRetry ==> NoFault(inject, from, now))
      && (VideosKnown(ids) ==>
            OnCourse(inject, !options.disableRetry, from, Batches(|ids|, options.maxBatchSize),
                     now, Batches(|ids| - Min(i, |ids|), options.maxBatchSize)))
    }

    /** A good batch is answered or given up as planned. */
    method CallInfos(ids: seq<nat>) returns (r: Result<seq<VideoInfo>, RpcError>)
      modifies `attempts, `errors, `retries
      ensures attempts > old(attempts) && retries >= old(retries)
      ensures options.disableRetry ==> retries == old(retries) && (r.Ok? ==> NoFault(inject, old(attempts), attempts))
      ensures r.Ok? ==> ids != [] && r == LookupAll(videos.videos, ids) && Settled(inject, old(attempts), attempts)
      ensures 0 < |ids| <= videos.maxBatchSize && Distinct(ids) && LookupAll(videos.videos, ids).Ok? ==>
                && Sends(inject, !options.disableRetry, old(attempts), 1) == Outcome(r.Ok?, attempts)
                && (r.Err? ==> if options.disableRetry then inject(attempts - 1)
                               else DoubleFaultAtEnd(inject, old(attempts), attempts))
      ensures r.Err? ==> errors != [] && errors[|errors| - 1] == r.error
      ensures old(errors) <= errors
      ensures 0 < |ids| <= videos.maxBatchSize && Distinct(ids) ==> AllAcceptable(old(errors), errors)
    {
      LookupOk(videos.videos, ids);
      SendOne(inject, !options.disableRetry, attempts);
      r := CallVideo(ids, !options.disableRetry);
    }

    /** One round of the GetVideo loop. */
    method VideoRound(ids: seq<nat>, i: nat, infos: seq<VideoInfo>, ghost from: nat)
      returns (r: Result<seq<VideoInfo>, RpcError>)
      requires i < |ids| && InfosSoFar(ids, i, infos, from, attempts)
      modifies `attempts, `errors, `retries
      ensures from <= attempts && retries >= old(retries) && (options.disableRetry ==> retries == old(retries))
      ensures r.Ok? ==> options.maxBatchSize > 0 && InfosSoFar(ids, i + options.maxBatchSize, r.value, from, attempts)
      ensures r.Err? && VideosKnown(ids) ==>
                && Sends(inject, !options.disableRetry, from, Batches(|ids|, options.maxBatchSize)) ==
                   Outcome(false, attempts)
                && (if options.disableRetry then attempts > from && inject(attempts - 1)
                    else !NoDoubleFault(inject, from, attempts))
      ensures r.Err? ==> errors != [] && errors[|errors| - 1] == r.error
      ensures old(errors) <= errors && (SizesFit() && Distinct(ids) ==> AllAcceptable(old(errors), errors))
    {
      var end := if i + options.maxBatchSize > |ids| then |ids| else i + options.maxBatchSize;
      BatchFits(ids, i, end, options.maxBatchSize);
      LookupBatch(videos.videos, ids, i, end);
      ghost var start := attempts;
      if VideosKnown(ids) {
        NextOnCourse(inject, !options.disableRetry, from, Batches(|ids|, options.maxBatchSize), start,
                     |ids|, options.maxBatchSize, i);
      }
      var reply := CallInfos(ids[i..end]);
      if reply.Err? {
        return Err(reply.error);
      }
      Join(inject, from, start, attempts);
      r := Ok(infos + reply.value);
    }

    /** The GetVideo loop. */
    method FetchVideos(ids: seq<nat>) returns (r: Result<seq<VideoInfo>, RpcError>)
      modifies `attempts, `errors, `retries
      ensures attempts >= old(attempts)
      ensures retries >= old(retries) && (options.disableRetry ==> retries == old(retries))
      ensures r.Ok? ==> r == LookupAll(videos.videos, ids) && Settled(inject, old(attempts), attempts)
      ensures r.Err? && SizesFit() && !options.disableRetry && Distinct(ids) && LookupAll(videos.videos, ids).Ok? ==>
                !NoDoubleFault(inject, old(attempts), attempts)
      ensures options.disableRetry && r.Ok? ==> NoFault(inject, old(attempts), attempts)
      ensures r.Err? && SizesFit() && options.disableRetry && Distinct(ids) && LookupAll(videos.videos, ids).Ok? ==>
                attempts > old(attempts) && inject(attempts - 1)
      ensures VideosKnown(ids) ==>
                Sends(inject, !options.disableRetry, old(attempts), Batches(|ids|, options.maxBatchSize)) ==
                Outcome(r.Ok?, attempts)
      ensures r.Err? ==> errors != [] && errors[|errors| - 1] == r.error
      ensures old(errors) <= errors && (SizesFit() && Distinct(ids) ==> AllAcceptable(old(errors), errors))
    {
      var infos := [];
      var i := 0;
      while i < |ids|
        invariant InfosSoFar(ids, i, infos, old(attempts), attempts)
        invariant retries >= old(retries) && (options.disableRetry ==> retries == old(retries))
        invariant old(errors) <= errors && (SizesFit() && Distinct(ids) ==> AllAcceptable(old(errors), errors))
        decreases |ids| - i
      {
        var reply := VideoRound(ids, i, infos, old(attempts));
        if reply.Err? {
          return Err(reply.error);
        }
        infos := reply.value;
        i := i + options.maxBatchSize;
      }
      assert ids[..|ids|] == ids;
      r := Ok(infos);
    }

    /** With retries disabled an RPC of this request is attempted twice. */
    ghost predicate Retries(userId: nat, from: nat)
      requires SizesFit()
    {
      && userId in users.users
      && var ids := users.users[userId].subscribedTo;
         RetriesAnyway(inject, LikedBy(users.users, ids).Ok?, from, Batches(|ids|, options.maxBatchSize))
    }

    /** The user exists, its own RPC succeeds at once, and either some user that it is subscribed
        to does not exist or one of the first attempts at their batches fails. */
    lemma RetriesMeans(userId: nat, from: nat)
      requires SizesFit() && userId in users.users
      ensures var ids := users.users[userId].subscribedTo;
              Retries(userId, from) <==>
                && !inject(from)
                && ((exists k :: 0 <= k < |ids| && ids[k] !in users.users) ||
                    (exists j :: from < j <= from + Batches(|ids|, options.maxBatchSize) && inject(j)))
    {
      LookupOk(users.users, users.users[userId].subscribedTo);
    }

    /** The first RPC of a request. */
    method CallOwn(userId: nat) returns (r: Result<UserInfo, RpcError>)
      modifies `attempts, `errors, `retries
      ensures attempts > old(attempts) && retries >= old(retries)
      ensures r.Ok? ==>
                userId in users.users && r.value == users.users[userId] && Settled(inject, old(attempts), attempts)
      ensures options.disableRetry ==> attempts == old(attempts) + 1 && retries == old(retries)
      ensures options.disableRetry && inject(old(attempts)) ==> r == Err(Injected)
      ensures SizesFit() && userId in users.users ==>
                Sends(inject, !options.disableRetry, old(attempts), 1) == Outcome(r.Ok?, attempts)
      ensures r.Err? && SizesFit() && !options.disableRetry && userId in users.users ==>
                DoubleFaultAtEnd(inject, old(attempts), attempts)
      ensures r.Err? ==> errors != [] && errors[|errors| - 1] == r.error
      ensures old(errors) <= errors && (SizesFit() ==> AllAcceptable(old(errors), errors))
    {
      LookupOk(users.users, [userId]);
      SendOne(inject, !options.disableRetry, attempts);
      var reply := CallUser([userId], !options.disableRetry);
      r := if reply.Err? then Err(reply.error) else Ok(reply.value[0]);
    }

    /** The user's own record and the ids of the videos to rank: the first half of GetTopVideos. */
    method GatherIds(userId: nat) returns (r: Result<(UserInfo, seq<nat>), RpcError>)
      modifies `attempts, `errors, `retries
      ensures options.disableRetry && inject(old(attempts)) ==> r == Err(Injected) && attempts == old(attempts) + 1
      ensures attempts >= old(attempts)
      ensures r.Ok? ==>
                && userId in users.users
                && r.value.0 == users.users[userId]
                && LikedBy(users.users, users.users[userId].subscribedTo).Ok?
                && r.value.1 == Dedup(LikedBy(users.users, users.users[userId].subscribedTo).value)
                && Distinct(r.value.1)
                && Settled(inject, old(attempts), attempts)
      ensures
        && r.Err?
        && SizesFit()
        && !options.disableRetry
        && userId in users.users
        && LikedBy(users.users, users.users[userId].subscribedTo).Ok?
        ==> !NoDoubleFault(inject, old(attempts), attempts)
      ensures userId in users.users && UsersKnown(users.users[userId].subscribedTo) ==>
                var b := Batches(|users.users[userId].subscribedTo|, options.maxBatchSize);
                Gathering(inject, options.disableRetry, old(attempts), b) == Outcome(r.Ok?, attempts)
      ensures SizesFit() && options.disableRetry ==> (retries > old(retries) <==> Retries(userId, old(attempts)))
      ensures retries >= old(retries)
      ensures r.Err? ==> errors != [] && errors[|errors| - 1] == r.error
      ensures old(errors) <= errors && (SizesFit() ==> AllAcceptable(old(errors), errors))
    {
      var own := CallOwn(userId);
      if own.Err? {
        return Err(own.error);
      }
      ghost var start := attempts;
      var liked := FetchLiked(own.value.subscribedTo);
      if liked.Err? {
        return Err(liked.error);
      }
      Join(inject, old(attempts), start, attempts);
      var toRank := DeduplicateIds(liked.value);
      DedupIsSet(liked.value);
      r := Ok((own.value, toRank));
    }

    /** The sizes fit and both databases have every entry that the request needs. */
    ghost predicate ServicesKnown(userId: nat) {
      SizesFit() && Candidates(users.users, videos.videos, userId).Ok?
    }

    lemma KnownMeans(userId: nat)
      ensures ServicesKnown(userId) <==>
                && 0 < options.maxBatchSize
                && options.maxBatchSize <= users.maxBatchSize && options.maxBatchSize <= videos.maxBatchSize
                && userId in users.users
                && (forall k :: 0 <= k < |users.users[userId].subscribedTo| ==>
                      users.users[userId].subscribedTo[k] in users.users)
                && (forall k, m ::
                      && 0 <= k < |users.users[userId].subscribedTo|
                      && 0 <= m < |users.users[users.users[userId].subscribedTo[k]].likedVideos| ==>
                      users.users[users.users[userId].subscribedTo[k]].likedVideos[m] in videos.videos)
    {
      CandidatesKnown(users.users, videos.videos, userId);
    }

    ghost function UserBatches(userId: nat): nat
      requires ServicesKnown(userId)
    {
      Batches(|users.users[userId].subscribedTo|, options.maxBatchSize)
    }

    /** The RPCs for users all succeed. */
    ghost predicate Gathered(userId: nat, from: nat)
      requires ServicesKnown(userId)
    {
      Gathering(inject, options.disableRetry, from, UserBatches(userId)).ok
    }

    /** How a request that finds all its entries goes, from the injected failures alone. */
    ghost function Planned(userId: nat, from: nat): Outcome
      requires ServicesKnown(userId)
    {
      var videoBatches := Batches(|Candidates(users.users, videos.videos, userId).value|, options.maxBatchSize);
      Delivery(inject, options.disableRetry, from, UserBatches(userId), videoBatches)
    }

    /** All RPCs of GetTopVideos. The inner result is that of the GetVideo loop. */
    method Fetch(userId: nat) returns (r: Result<(UserInfo, Result<seq<VideoInfo>, RpcError>), RpcError>)
      modifies `attempts, `errors, `retries
      ensures options.disableRetry && inject(old(attempts)) ==> r == Err(Injected) && attempts == old(attempts) + 1
      ensures r.Ok? ==> userId in users.users && r.value.0 == users.users[userId]
      ensures r.Ok? && r.value.1.Ok? ==> r.value.1 == Candidates(users.users, videos.videos, userId)
      ensures SizesFit() && !options.disableRetry && Candidates(users.users, videos.videos, userId).Ok? ==>
                (r.Ok? && r.value.1.Ok? <==> NoDoubleFault(inject, old(attempts), attempts))
      ensures ServicesKnown(userId) ==>
                && Planned(userId, old(attempts)) == Outcome(r.Ok? && r.value.1.Ok?, attempts)
                && (r.Ok? <==> Gathered(userId, old(attempts)))
      ensures SizesFit() && options.disableRetry ==> (retries > old(retries) <==> Retries(userId, old(attempts)))
      ensures r.Err? ==> errors != [] && errors[|errors| - 1] == r.error
      ensures r.Ok? && r.value.1.Err? ==> errors != [] && errors[|errors| - 1] == r.value.1.error
      ensures SizesFit() ==> AllAcceptable(old(errors), errors)
    {
      var gathered := GatherIds(userId);
      if gathered.Err? {
        return Err(gathered.error);
      }
      ghost var start := attempts;
      assert Candidates(users.users, videos.videos, userId) == LookupAll(videos.videos, gathered.value.1);
      LookupOk(videos.videos, gathered.value.1);
      var fetched := FetchVideos(gathered.value.1);
      if fetched.Ok? {
        Join(inject, old(attempts), start, attempts);
      }
      r := Ok((gathered.value.0, fetched));
    }

    /** The answer that the unbatched specification allows. */
    ghost predicate Answers(top: seq<VideoInfo>, userId: nat, limit: nat) {
      && userId in users.users
      && var candidates := Candidates(users.users, videos.videos, userId);
         candidates.Ok? && IsTop(top, candidates.value, limit, RankFor(hashing, users.users[userId].coeffs))
    }

    /** In terms of the databases: the ids of all videos that some user that the user is subscribed
        to likes, each once, by descending rank, and the entries of the first limit of them. */
    lemma AnswerIds(top: seq<VideoInfo>, userId: nat, limit: nat) returns (ids: seq<nat>)
      requires Answers(top, userId, limit)
      ensures userId in users.users
      ensures forall k :: 0 <= k < |users.users[userId].subscribedTo| ==>
                            users.users[userId].subscribedTo[k] in users.users
      ensures forall x :: x in ids <==>
                          exists k, m ::
                            && 0 <= k < |users.users[userId].subscribedTo|
                            && 0 <= m < |users.users[users.users[userId].subscribedTo[k]].likedVideos|
                            && users.users[users.users[userId].subscribedTo[k]].likedVideos[m] == x
      ensures forall i, j :: 0 <= i < j < |ids| ==> ids[i] != ids[j]
      ensures forall i :: 0 <= i < |ids| ==> ids[i] in videos.videos
      ensures forall i, j :: 0 <= i < j < |ids| ==>
                var coeffs := users.users[userId].coeffs;
                Ranker.RankOf(hashing, coeffs, videos.videos[ids[i]].coeffs) >=
                Ranker.RankOf(hashing, coeffs, videos.videos[ids[j]].coeffs)
      ensures |top| == if limit == 0 || |ids| <= limit then |ids| else limit
      ensures forall i :: 0 <= i < |top| ==> top[i] == videos.videos[ids[i]]
    {
      var rank := RankFor(hashing, users.users[userId].coeffs);
      var liked := LikedBy(users.users, users.users[userId].subscribedTo).value;
      LikedMembers(users.users, users.users[userId].subscribedTo);
      DedupIsSet(liked);
      ids := TopIds(videos.videos, Dedup(liked), top, limit, rank);
      forall i, j | 0 <= i < j < |ids|
        ensures Ranker.RankOf(hashing, users.users[userId].coeffs, videos.videos[ids[i]].coeffs) >=
                Ranker.RankOf(hashing, users.users[userId].coeffs, videos.videos[ids[j]].coeffs)
      {
        assert rank(videos.videos[ids[i]]) >= rank(videos.videos[ids[j]]);
      }
    }

    /** The videos to rank: those fetched, or the cache itself as the fallback. */
    method Choose(fetched: Result<seq<VideoInfo>, RpcError>) returns (r: Result<array<VideoInfo>, Error>)
      modifies `totalErrors, `videoServiceErrors, `staleResponses
      ensures fetched.Ok? ==>
                && r.Ok? && fresh(r.value) && r.value[..] == fetched.value
                && totalErrors == old(totalErrors) && videoServiceErrors == old(videoServiceErrors)
                && staleResponses == old(staleResponses)
      ensures fetched.Err? ==>
                && r == (if options.disableFallback || topVideos.Length == 0 then Err(VideoServiceError(fetched.error))
                         else Ok(topVideos))
                && totalErrors == old(totalErrors) + 1 && videoServiceErrors == old(videoServiceErrors) + 1
                && staleResponses == old(staleResponses) + if options.disableFallback then 0 else 1
    {
      if fetched.Ok? {
        var infos := ArrayOf(fetched.value);
        return Ok(infos);
      }
      totalErrors := totalErrors + 1;
      videoServiceErrors := videoServiceErrors + 1;
      if options.disableFallback {
        return Err(VideoServiceError(fetched.error));
      }
      staleResponses := staleResponses + 1;
      if topVideos.Length == 0 {
        return Err(VideoServiceError(fetched.error));
      }
      r := Ok(topVideos);
    }

    /** What is shown of a cache that is sorted: its first limit videos, by descending rank. */
    lemma StaleShows(sorted: seq<VideoInfo>, coeffs: Ranker.Coeffs, limit: nat)
      requires Descending(sorted, RankFor(hashing, coeffs))
      ensures var shown := if limit == 0 || |sorted| <= limit then |sorted| else limit;
              Truncated(sorted, limit) == sorted[..shown]
      ensures forall i, j :: 0 <= i < j < |sorted| ==>
                Ranker.RankOf(hashing, coeffs, sorted[i].coeffs) >= Ranker.RankOf(hashing, coeffs, sorted[j].coeffs)
    {
      var rank := RankFor(hashing, coeffs);
      forall i, j | 0 <= i < j < |sorted|
        ensures Ranker.RankOf(hashing, coeffs, sorted[i].coeffs) >= Ranker.RankOf(hashing, coeffs, sorted[j].coeffs)
      {
        assert rank(sorted[i]) >= rank(sorted[j]);
      }
    }

    method GetTopVideos(userId: nat, limit: int) returns (r: Result<Response, Error>)
      modifies this, topVideos
      ensures topVideos == old(topVideos) && multiset(topVideos[..]) == multiset(old(topVideos[..]))
      ensures limit < 0 <==> r == Err(NegativeLimit)
      // An answer that is not stale is the one of the unbatched specification: see AnswerIds.
      ensures r.Ok? && !r.value.stale ==> Answers(r.value.videos, userId, limit) && topVideos[..] == old(topVideos[..])
      // With consistent databases it is given exactly when no RPC failed on both attempts.
      ensures
        && 0 <= limit
        && SizesFit()
        && !options.disableRetry
        && Candidates(users.users, videos.videos, userId).Ok?
        ==> (r.Ok? && !r.value.stale <==>
               forall k :: old(attempts) <= k && k + 1 < attempts ==> !(inject(k) && inject(k + 1)))
      // The failures decide whether it is given, and after how many attempts.
      ensures 0 <= limit && ServicesKnown(userId) ==>
                Planned(userId, old(attempts)) == Outcome(r.Ok? && !r.value.stale, attempts)
      // A request that is not answered so is a user error if the RPCs for users did not all
      // succeed, and is otherwise answered stale, or a video error if it cannot be.
      ensures 0 <= limit && ServicesKnown(userId) ==>
                (r.Err? && r.error.UserServiceError? <==> !Gathered(userId, old(attempts)))
      ensures 0 <= limit && ServicesKnown(userId) ==>
                (r.Ok? && r.value.stale <==>
                   && Gathered(userId, old(attempts)) && !Planned(userId, old(attempts)).ok
                   && !options.disableFallback && 0 < topVideos.Length)
      // With retries disabled an RPC is attempted twice exactly when one of the subscribed-to
      // loop fails at first, whether by a failure or because a user does not exist.
      ensures 0 <= limit && SizesFit() && options.disableRetry ==>
                (retries > old(retries) <==> Retries(userId, old(attempts)))
      // With retries disabled one failure of the first RPC is enough.
      ensures 0 <= limit && options.disableRetry && inject(old(attempts)) ==>
                r == Err(UserServiceError(Injected)) && attempts == old(attempts) + 1
      // No batch is refused as empty, oversized or duplicated.
      ensures SizesFit() ==> AllAcceptable(old(errors), errors)
      // A stale answer is the top of the whole cache, whatever had been fetched.
      ensures r.Ok? && r.value.stale ==>
                && !options.disableFallback
                && 0 < topVideos.Length
                && userId in users.users
                && IsTop(r.value.videos, old(topVideos[..]), limit, RankFor(hashing, users.users[userId].coeffs))
                && r.value.videos == Truncated(topVideos[..], limit)
                && Descending(topVideos[..], RankFor(hashing, users.users[userId].coeffs))
      ensures r.Err? && r.error.VideoServiceError? ==> options.disableFallback || topVideos.Length == 0
      ensures r.Err? ==> topVideos[..] == old(topVideos[..])
      ensures r.Err? && !r.error.NegativeLimit? ==> errors != [] && errors[|errors| - 1] == r.error.cause
      // Every request that is not answered from the services is an error of one of them.
      ensures totalRequests == old(totalRequests) + 1
      ensures userServiceErrors == old(userServiceErrors) + if r.Err? && r.error.UserServiceError? then 1 else 0
      ensures videoServiceErrors == old(videoServiceErrors) +
                                    if (r.Err? && r.error.VideoServiceError?) || (r.Ok? && r.value.stale) then 1 else 0
      ensures totalErrors - old(totalErrors) ==
              userServiceErrors - old(userServiceErrors) + videoServiceErrors - old(videoServiceErrors)
      ensures staleResponses - old(staleResponses) ==
              if options.disableFallback then 0 else videoServiceErrors - old(videoServiceErrors)
    {
      totalRequests := totalRequests + 1;
      if limit < 0 {
        return Err(NegativeLimit);
      }
      var reply := Fetch(userId);
      if reply.Err? {
        totalErrors := totalErrors + 1;
        userServiceErrors := userServiceErrors + 1;
        return Err(UserServiceError(reply.error));
      }
      var user, fetched := reply.value.0, reply.value.1;
      var infos := Choose(fetched);
      if infos.Err? {
        return Err(infos.error);
      }
      var top := RankSortCut(hashing, user.coeffs, infos.value, limit);
      r := Ok(Response(top, fetched.Err?));
    }

    /** One turn of ContinuallyRefreshCache; trending is the reply of GetTrendingVideos. */
    method RefreshCache(trending: Result<seq<nat>, RpcError>)
      modifies `attempts, `errors, `retries, `topVideos
      ensures topVideos == old(topVideos) || fresh(topVideos)
      ensures fresh(topVideos) <==>
                && !options.disableFallback
                && trending.Ok?
                && VideoReply(videos.videos, videos.maxBatchSize, trending.value, inject(old(attempts))).Ok?
      ensures fresh(topVideos) ==> topVideos.Length > 0 && LookupAll(videos.videos, trending.value) == Ok(topVideos[..])
      ensures fresh(topVideos) <==>
                && !options.disableFallback
                && trending.Ok?
                && !inject(old(attempts))
                && 0 < |trending.value| <= videos.maxBatchSize
                && (forall i, j :: 0 <= i < j < |trending.value| ==> trending.value[i] != trending.value[j])
                && (forall i :: 0 <= i < |trending.value| ==> trending.value[i] in videos.videos)
      ensures fresh(topVideos) ==>
                && topVideos.Length == |trending.value|
                && forall i :: 0 <= i < topVideos.Length ==> topVideos[i] == videos.videos[trending.value[i]]
    {
      if options.disableFallback || trending.Err? {
        return;
      }
      LookupOk(videos.videos, trending.value);
      var reply := CallVideo(trending.value, false);
      if reply.Ok? {
        topVideos := ArrayOf(reply.value);
      }
    }

    /** What a reply to a request may be, given the cache as it was last refreshed. */
    ghost predicate Explained(cache: seq<VideoInfo>, request: (nat, int), reply: Result<Response, Error>) {
      && (request.1 < 0 <==> reply == Err(NegativeLimit))
      && (reply.Ok? && !reply.value.stale ==> Answers(reply.value.videos, request.0, request.1))
      && (reply.Ok? && reply.value.stale ==>
            && !options.disableFallback
            && cache != []
            && request.0 in users.users
            && IsTop(reply.value.videos, cache, request.1, RankFor(hashing, users.users[request.0].coeffs)))
    }

    /** A stale reply, in terms of the cache: full is the cache by descending rank for the user. */
    lemma StaleExplained(cache: seq<VideoInfo>, request: (nat, int), reply: Result<Response, Error>)
      returns (full: seq<VideoInfo>)
      requires Explained(cache, request, reply) && reply.Ok? && reply.value.stale
      ensures !options.disableFallback && cache != [] && request.0 in users.users && 0 <= request.1
      ensures multiset(full) == multiset(cache)
      ensures forall i, j :: 0 <= i < j < |full| ==>
                var coeffs := users.users[request.0].coeffs;
                Ranker.RankOf(hashing, coeffs, full[i].coeffs) >= Ranker.RankOf(hashing, coeffs, full[j].coeffs)
      ensures reply.value.videos == full[..if request.1 == 0 || |full| <= request.1 then |full| else request.1]
    {
      var coeffs := users.users[request.0].coeffs;
      full :| && multiset(full) == multiset(cache) && Descending(full, RankFor(hashing, coeffs))
              && reply.value.videos == Truncated(full, request.1);
      StaleShows(full, coeffs, request.1);
    }

    method ServeOne(request: (nat, int), ghost cache: seq<VideoInfo>) returns (reply: Result<Response, Error>)
      requires multiset(topVideos[..]) == multiset(cache)
      modifies this, topVideos
      ensures topVideos == old(topVideos) && multiset(topVideos[..]) == multiset(cache)
      ensures totalRequests == old(totalRequests) + 1
      ensures Explained(cache, request, reply)
    {
      ghost var before := topVideos[..];
      reply := GetTopVideos(request.0, request.1);
      if reply.Ok? && reply.value.stale {
        IsTopPermuted(reply.value.videos, before, cache, request.1, RankFor(hashing, users.users[request.0].coeffs));
      }
    }

    /** Requests between two refreshes, none overlapping another. The cache stays a permutation
        of itself although stale answers sort it in place, so that every stale answer is the top
        of the cache as it was last refreshed, for its own user. */
    method Serve(requests: seq<(nat, int)>) returns (replies: seq<Result<Response, Error>>)
      modifies this, topVideos
      ensures topVideos == old(topVideos) && multiset(topVideos[..]) == multiset(old(topVideos[..]))
      ensures |replies| == |requests| && totalRequests == old(totalRequests) + |requests|
      ensures forall k :: 0 <= k < |replies| ==> Explained(old(topVideos[..]), requests[k], replies[k])
    {
      replies := [];
      for k := 0 to |requests|
        invariant topVideos == old(topVideos) && multiset(topVideos[..]) == multiset(old(topVideos[..]))
        invariant |replies| == k && totalRequests == old(totalRequests) + k
        invariant forall i :: 0 <= i < k ==> Explained(old(topVideos[..]), requests[i], replies[i])
      {
        var reply := ServeOne(requests[k], old(topVideos[..]));
        replies := replies + [reply];
      }
    }
  }
}

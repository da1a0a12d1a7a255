/**
 * The station-chain walk of the diagram component: starting from the base train
 * at the current post, neighbouring posts are discovered by following the base
 * train's `toPostId` (forward, appended) and `fromPostId` (backward, prepended)
 * links, fetching each post's timetable, until seven posts are held, both
 * directions are closed, or neither end has a link.
 *
 * The loop of the source does not always terminate: in two kinds of state one
 * iteration changes nothing and no exit fires, so the same iteration repeats
 * forever. `Stuck` names those states exactly (`StuckIff`); the model reports them
 * as `Spins` instead of looping.
 */
module ChainWalk {
  import opened Wrappers
  import opened JsParseInt
  import opened TimetableRows
  import opened StationCodes

  /** The number of posts the walk tries to reach. */
  const TargetPosts: nat := 7

  /** `[offset, postId, rows, rowForTrain]`: one walked post. */
  datatype PostRecord = PostRecord(offset: int, postId: string, rows: seq<TimetableRow>, train: TimetableRow)

  /**
   * What the walk reads but does not own: the base train number, the resolution
   * of a link to a station identifier (`ResolveStation` over the loaded station
   * codes, see `EnvOf`) and the timetable fetch (`None` stands for a falsy result).
   */
  datatype WalkEnv = WalkEnv(
    baseTrainNumber: string,
    resolve: string -> Option<string>,
    fetch: string -> Option<seq<TimetableRow>>)

  datatype WalkState = WalkState(record: seq<PostRecord>, stopBrowsingBackward: bool, stopBrowsingForward: bool)

  /** How one loop iteration ends: by a `break` or by reaching the loop head again. */
  datatype Iteration = Exit(state: WalkState) | Next(state: WalkState)

  /** One attempt to extend the record in one direction. */
  datatype Attempt = NotTried | Unresolved | Refused | Added(record: seq<PostRecord>)

  datatype WalkOutcome = Completed(final: WalkState) | Spins(at: WalkState)

  /** `getStationIdentifierFromNumber(parseInt(link))`; NaN matches no entry. */
  function ResolveStation(stationCodes: CodeEntries, link: string): (r: Option<string>)
    ensures r.Some? <==> ParseInt(link).Some? &&
                         exists i :: 0 <= i < |stationCodes| && stationCodes[i].1 == ParseInt(link).value
    ensures r.Some? ==> (r.value, ParseInt(link).value) in stationCodes
  {
    match ParseInt(link)
    case None => None
    case Some(n) => StationIdentifierFromNumber(Some(stationCodes), n)
  }

  /** The environment of a walk over loaded station codes. */
  function EnvOf(baseTrainNumber: string, stationCodes: CodeEntries, fetch: string -> Option<seq<TimetableRow>>): (env: WalkEnv)
    ensures forall link :: env.resolve(link) == ResolveStation(stationCodes, link)
  {
    WalkEnv(baseTrainNumber, link => ResolveStation(stationCodes, link), fetch)
  }

  /**
   * The record `pushRecord(offset, postId)` leaves: `None` when the fetch is falsy or the base train
   * is not in the fetched timetable; otherwise the record with the new post
   * inserted at the end for a positive offset and at the front otherwise.
   */
  function Pushed(env: WalkEnv, record: seq<PostRecord>, offset: int, postId: string): (r: Option<seq<PostRecord>>)
    ensures r.Some? <==> env.fetch(postId).Some? && FindTrain(env.fetch(postId).value, env.baseTrainNumber).Some?
    ensures r.Some? ==> |r.value| == |record| + 1
    ensures r.Some? ==> r.value[if offset > 0 then |record| else 0].postId == postId
  {
    match env.fetch(postId)
    case None => None
    case Some(tt) =>
      match FindTrain(tt, env.baseTrainNumber)
      case None => None
      case Some(train) =>
        var insertAt := if offset > 0 then |record| else 0;
        Some(record[..insertAt] + [PostRecord(offset, postId, tt, train)] + record[insertAt..])
  }

  /** One direction's step: tried only when the link is truthy and the direction is open. */
  function TryExtend(env: WalkEnv, record: seq<PostRecord>, link: Option<string>, stopped: bool, offset: int): Attempt {
    if !(Truthy(link) && !stopped) then NotTried
    else
      var sid := env.resolve(link.value);
      if !Truthy(sid) then Unresolved
      else
        match Pushed(env, record, offset, sid.value)
        case None => Refused
        case Some(r) => Added(r)
  }

  function First(s: WalkState): PostRecord requires s.record != [] { s.record[0] }
  function Last(s: WalkState): PostRecord requires s.record != [] { s.record[|s.record| - 1] }

  /**
   * The forward half of the body: extend past the last post along its
   * `toPostId`. The flag says whether the `continue` was taken.
   */
  function AfterForward(env: WalkEnv, s: WalkState): (WalkState, bool)
    requires s.record != []
  {
    var last := Last(s);
    match TryExtend(env, s.record, last.train.toPostId, s.stopBrowsingForward, last.offset + 1)
    case NotTried => (s, false)
    case Unresolved => (s.(stopBrowsingForward := true), true)
    case Refused => (s.(stopBrowsingForward := true), false)
    case Added(r) => (s.(record := r), false)
  }

  /** The backward half of the body: extend before `first` (read at the start of the body) along its `fromPostId`. */
  function AfterBackward(env: WalkEnv, s: WalkState, first: PostRecord): WalkState {
    match TryExtend(env, s.record, first.train.fromPostId, s.stopBrowsingBackward, first.offset - 1)
    case NotTried => s
    case Unresolved => s.(stopBrowsingBackward := true)
    case Refused => s.(stopBrowsingBackward := true)
    case Added(r) => s.(record := r)
  }

  /** The body of `while (record.length < 7)`. `first` and `last` are read once, at its start. */
  function Iterate(env: WalkEnv, s: WalkState): (r: Iteration)
    requires s.record != []
    ensures |r.state.record| >= |s.record|
    ensures s.stopBrowsingForward ==> r.state.stopBrowsingForward
    ensures s.stopBrowsingBackward ==> r.state.stopBrowsingBackward
    ensures r.Exit? ==> r.state == s || |r.state.record| >= TargetPosts
  {
    var first := First(s);
    var last := Last(s);
    if !Truthy(first.train.fromPostId) && !Truthy(last.train.toPostId) then Exit(s)
    else if s.stopBrowsingBackward && s.stopBrowsingForward then Exit(s)
    else
      var (s1, continued) := AfterForward(env, s);
      if continued then Next(s1)
      else if |s1.record| >= TargetPosts then Exit(s1)
      else Next(AfterBackward(env, s1, first))
  }

  /**
   * The states in which an iteration changes nothing and does not exit: one
   * direction closed, the other still open, and the open direction's end
   * without a link (while the closed direction's end has one).
   */
  predicate Stuck(s: WalkState)
    requires s.record != []
  {
    || (s.stopBrowsingForward && !s.stopBrowsingBackward &&
        !Truthy(First(s).train.fromPostId) && Truthy(Last(s).train.toPostId))
    || (s.stopBrowsingBackward && !s.stopBrowsingForward &&
        !Truthy(Last(s).train.toPostId) && Truthy(First(s).train.fromPostId))
  }

  /** Offsets increase by one from each post to the next. */
  ghost predicate Contiguous(record: seq<PostRecord>) {
    forall i :: 0 <= i < |record| ==> record[i].offset == record[0].offset + i
  }

  /** Every post holds the base train's row as `find` returns it from that post's timetable. */
  ghost predicate AllMatched(env: WalkEnv, record: seq<PostRecord>) {
    forall i :: 0 <= i < |record| ==> FindTrain(record[i].rows, env.baseTrainNumber) == Some(record[i].train)
  }

  /** The post at offset 0 is still the seed. */
  ghost predicate SeedAtZero(seed: PostRecord, record: seq<PostRecord>) {
    record != [] && record[0].offset <= 0 <= record[|record| - 1].offset &&
    -record[0].offset < |record| && record[-record[0].offset] == seed
  }

  /**
   * The walk's invariant: at most seven posts, contiguous offsets, the seed still
   * at offset 0, and every post holding the base train's row as found in that
   * post's timetable.
   */
  ghost predicate Valid(env: WalkEnv, seed: PostRecord, s: WalkState) {
    ValidRecord(env, seed, s.record)
  }

  ghost predicate ValidRecord(env: WalkEnv, seed: PostRecord, record: seq<PostRecord>) {
    && 1 <= |record| <= TargetPosts
    && Contiguous(record)
    && SeedAtZero(seed, record)
    && AllMatched(env, record)
  }

  /** Decreases on every iteration that changes the state. */
  function Measure(s: WalkState): nat {
    (if |s.record| < TargetPosts then 2 * (TargetPosts - |s.record|) else 0) +
    (if s.stopBrowsingForward then 0 else 1) + (if s.stopBrowsingBackward then 0 else 1)
  }

  /** The state the loop starts from: the base train at the current post, both directions open. */
  function Seed(post: string, timetable: seq<TimetableRow>, trainObj: TimetableRow): WalkState {
    WalkState([PostRecord(0, post, timetable, trainObj)], false, false)
  }

  lemma SeedValid(env: WalkEnv, post: string, timetable: seq<TimetableRow>, trainObj: TimetableRow)
    requires FindTrain(timetable, env.baseTrainNumber) == Some(trainObj)
    ensures Valid(env, PostRecord(0, post, timetable, trainObj), Seed(post, timetable, trainObj))
  {
  }

  /** The post a successful push adds: the fetched timetable and the base train's row in it. */
  function PushedPost(env: WalkEnv, offset: int, postId: string): PostRecord
    requires env.fetch(postId).Some? && FindTrain(env.fetch(postId).value, env.baseTrainNumber).Some?
  {
    PostRecord(offset, postId, env.fetch(postId).value, FindTrain(env.fetch(postId).value, env.baseTrainNumber).value)
  }

  /** A successful push appends the new post for a positive offset and prepends it otherwise. */
  lemma PushShape(env: WalkEnv, record: seq<PostRecord>, offset: int, postId: string)
    requires Pushed(env, record, offset, postId).Some?
    ensures env.fetch(postId).Some? && FindTrain(env.fetch(postId).value, env.baseTrainNumber).Some?
    ensures Pushed(env, record, offset, postId).value ==
      if offset > 0 then record + [PushedPost(env, offset, postId)] else [PushedPost(env, offset, postId)] + record
  {
    var p := PushedPost(env, offset, postId);
    if offset > 0 {
      assert record[..|record|] + [p] + record[|record|..] == record + [p];
    } else {
      assert record[..0] + [p] + record[0..] == [p] + record;
    }
  }

  /**
   * A push adds nothing exactly when the fetch is falsy or the fetched timetable
   * has no row of the base train.
   */
  lemma PushRefused(env: WalkEnv, record: seq<PostRecord>, offset: int, postId: string)
    ensures Pushed(env, record, offset, postId).None? <==>
      || env.fetch(postId).None?
      || forall i :: 0 <= i < |env.fetch(postId).value| ==> env.fetch(postId).value[i].trainNoLocal != env.baseTrainNumber
  {
    if env.fetch(postId).Some? {
      FindTrainSpec(env.fetch(postId).value, env.baseTrainNumber);
    }
  }

  lemma AppendContiguous(record: seq<PostRecord>, p: PostRecord)
    requires record != [] && Contiguous(record) && p.offset == record[|record| - 1].offset + 1
    ensures Contiguous(record + [p])
  {
    var r := record + [p];
    forall i | 0 <= i < |r| ensures r[i].offset == r[0].offset + i {
      if i < |record| { assert r[i] == record[i]; }
    }
  }

  lemma PrependContiguous(record: seq<PostRecord>, p: PostRecord)
    requires record != [] && Contiguous(record) && p.offset == record[0].offset - 1
    ensures Contiguous([p] + record)
  {
    var r := [p] + record;
    forall i | 0 <= i < |r| ensures r[i].offset == r[0].offset + i {
      if i > 0 { assert r[i] == record[i - 1]; }
    }
  }

  lemma AppendMatched(env: WalkEnv, record: seq<PostRecord>, p: PostRecord)
    requires AllMatched(env, record) && FindTrain(p.rows, env.baseTrainNumber) == Some(p.train)
    ensures AllMatched(env, record + [p]) && AllMatched(env, [p] + record)
  {
    var r := record + [p];
    forall i | 0 <= i < |r| ensures FindTrain(r[i].rows, env.baseTrainNumber) == Some(r[i].train) {
      if i < |record| { assert r[i] == record[i]; }
    }
    var q := [p] + record;
    forall i | 0 <= i < |q| ensures FindTrain(q[i].rows, env.baseTrainNumber) == Some(q[i].train) {
      if i > 0 { assert q[i] == record[i - 1]; }
    }
  }

  lemma AppendSeed(seed: PostRecord, record: seq<PostRecord>, p: PostRecord)
    requires SeedAtZero(seed, record) && Contiguous(record) && p.offset == record[|record| - 1].offset + 1
    ensures SeedAtZero(seed, record + [p])
  {
    var r := record + [p];
    assert r[-r[0].offset] == record[-record[0].offset];
  }

  lemma PrependSeed(seed: PostRecord, record: seq<PostRecord>, p: PostRecord)
    requires SeedAtZero(seed, record) && Contiguous(record) && p.offset == record[0].offset - 1
    ensures SeedAtZero(seed, [p] + record)
  {
    var r := [p] + record;
    assert r[-r[0].offset] == record[-record[0].offset];
  }

  /** Appending a matched post one past the last offset keeps the invariant below seven posts. */
  lemma AppendValid(env: WalkEnv, seed: PostRecord, record: seq<PostRecord>, p: PostRecord)
    requires ValidRecord(env, seed, record) && |record| < TargetPosts
    requires p.offset == record[|record| - 1].offset + 1 && FindTrain(p.rows, env.baseTrainNumber) == Some(p.train)
    ensures ValidRecord(env, seed, record + [p])
  {
    AppendContiguous(record, p);
    AppendMatched(env, record, p);
    AppendSeed(seed, record, p);
  }

  /** Prepending a matched post one before the first offset keeps the invariant below seven posts. */
  lemma PrependValid(env: WalkEnv, seed: PostRecord, record: seq<PostRecord>, p: PostRecord)
    requires ValidRecord(env, seed, record) && |record| < TargetPosts
    requires p.offset == record[0].offset - 1 && FindTrain(p.rows, env.baseTrainNumber) == Some(p.train)
    ensures ValidRecord(env, seed, [p] + record)
  {
    PrependContiguous(record, p);
    AppendMatched(env, record, p);
    PrependSeed(seed, record, p);
  }

  /** A forward push appends a post one past the last offset, keeping the invariant. */
  lemma AppendKeepsValid(env: WalkEnv, seed: PostRecord, s: WalkState, postId: string)
    requires Valid(env, seed, s) && |s.record| < TargetPosts
    requires Pushed(env, s.record, Last(s).offset + 1, postId).Some?
    ensures var r := Pushed(env, s.record, Last(s).offset + 1, postId).value;
      && Valid(env, seed, s.(record := r))
      && r == s.record + [r[|s.record|]]
      && r[|s.record|].postId == postId && env.fetch(postId) == Some(r[|s.record|].rows)
  {
    var offset := Last(s).offset + 1;
    PushShape(env, s.record, offset, postId);
    var p := PushedPost(env, offset, postId);
    AppendValid(env, seed, s.record, p);
    assert (s.record + [p])[|s.record|] == p;
  }

  /** A backward push prepends a post one before the first offset, keeping the invariant. */
  lemma PrependKeepsValid(env: WalkEnv, seed: PostRecord, s: WalkState, postId: string)
    requires Valid(env, seed, s) && |s.record| < TargetPosts
    requires Pushed(env, s.record, First(s).offset - 1, postId).Some?
    ensures var r := Pushed(env, s.record, First(s).offset - 1, postId).value;
      && Valid(env, seed, s.(record := r))
      && r == [r[0]] + s.record
      && r[0].postId == postId && env.fetch(postId) == Some(r[0].rows)
  {
    var offset := First(s).offset - 1;
    PushShape(env, s.record, offset, postId);
    var p := PushedPost(env, offset, postId);
    PrependValid(env, seed, s.record, p);
  }

  lemma AfterForwardKeepsValid(env: WalkEnv, seed: PostRecord, s: WalkState)
    requires Valid(env, seed, s) && |s.record| < TargetPosts
    ensures var s1 := AfterForward(env, s).0;
      Valid(env, seed, s1) && First(s1) == First(s) && s1.stopBrowsingBackward == s.stopBrowsingBackward
  {
    var last := Last(s);
    match TryExtend(env, s.record, last.train.toPostId, s.stopBrowsingForward, last.offset + 1)
    case Added(r) =>
      AppendKeepsValid(env, seed, s, env.resolve(last.train.toPostId.value).value);
      assert AfterForward(env, s).0.record == r;
    case _ =>
      assert AfterForward(env, s).0.record == s.record;
  }

  lemma AfterBackwardKeepsValid(env: WalkEnv, seed: PostRecord, s: WalkState)
    requires Valid(env, seed, s) && |s.record| < TargetPosts
    ensures Valid(env, seed, AfterBackward(env, s, First(s)))
  {
    var first := First(s);
    match TryExtend(env, s.record, first.train.fromPostId, s.stopBrowsingBackward, first.offset - 1)
    case Added(r) =>
      PrependKeepsValid(env, seed, s, env.resolve(first.train.fromPostId.value).value);
      assert AfterBackward(env, s, first).record == r;
    case _ =>
      assert AfterBackward(env, s, first).record == s.record;
  }

  /** One iteration keeps the invariant; in particular the record never exceeds seven posts. */
  lemma IterateKeepsValid(env: WalkEnv, seed: PostRecord, s: WalkState)
    requires Valid(env, seed, s) && |s.record| < TargetPosts
    ensures Valid(env, seed, Iterate(env, s).state)
  {
    AfterForwardKeepsValid(env, seed, s);
    var s1 := AfterForward(env, s).0;
    if |s1.record| < TargetPosts {
      AfterBackwardKeepsValid(env, seed, s1);
    }
  }

  /** The forward half appends at most one post, the resolved and fetched station past the last one. */
  lemma ForwardShape(env: WalkEnv, seed: PostRecord, s: WalkState)
    requires Valid(env, seed, s) && |s.record| < TargetPosts
    ensures var (s1, continued) := AfterForward(env, s);
      && s1.stopBrowsingBackward == s.stopBrowsingBackward
      && (s.stopBrowsingForward ==> s1.stopBrowsingForward)
      && (s1.record == s.record || s1.record == s.record + [Last(s1)])
      && (s1.record != s.record ==>
            && !s.stopBrowsingForward && Truthy(Last(s).train.toPostId)
            && env.resolve(Last(s).train.toPostId.value) == Some(Last(s1).postId)
            && env.fetch(Last(s1).postId) == Some(Last(s1).rows)
            && !continued)
      && (!s.stopBrowsingForward && Truthy(Last(s).train.toPostId) ==> s1.record != s.record || s1.stopBrowsingForward)
      && (s1.stopBrowsingForward && !s.stopBrowsingForward ==> s1.record == s.record && Truthy(Last(s).train.toPostId))
      && (continued ==> s1.record == s.record)
  {
    var last := Last(s);
    match TryExtend(env, s.record, last.train.toPostId, s.stopBrowsingForward, last.offset + 1)
    case Added(r) =>
      AppendKeepsValid(env, seed, s, env.resolve(last.train.toPostId.value).value);
      assert AfterForward(env, s).0.record == r;
    case _ =>
  }

  /** The backward half prepends at most one post, the resolved and fetched station before `first`. */
  lemma BackwardShape(env: WalkEnv, seed: PostRecord, s: WalkState)
    requires Valid(env, seed, s) && |s.record| < TargetPosts
    ensures var t := AfterBackward(env, s, First(s));
      && t.stopBrowsingForward == s.stopBrowsingForward
      && (s.stopBrowsingBackward ==> t.stopBrowsingBackward)
      && (t.record == s.record || t.record == [First(t)] + s.record)
      && (t.record != s.record ==>
            && !s.stopBrowsingBackward && Truthy(First(s).train.fromPostId)
            && env.resolve(First(s).train.fromPostId.value) == Some(First(t).postId)
            && env.fetch(First(t).postId) == Some(First(t).rows))
      && (!s.stopBrowsingBackward && Truthy(First(s).train.fromPostId) ==> t.record != s.record || t.stopBrowsingBackward)
      && (t.stopBrowsingBackward && !s.stopBrowsingBackward ==> t.record == s.record && Truthy(First(s).train.fromPostId))
  {
    var first := First(s);
    match TryExtend(env, s.record, first.train.fromPostId, s.stopBrowsingBackward, first.offset - 1)
    case Added(r) =>
      PrependKeepsValid(env, seed, s, env.resolve(first.train.fromPostId.value).value);
      assert AfterBackward(env, s, first).record == r;
    case _ =>
  }

  /**
   * What one iteration does to the record: at most one post appended and at
   * most one prepended, the old posts kept in order, and flags only ever set.
   */
  lemma IterateShape(env: WalkEnv, seed: PostRecord, s: WalkState)
    requires Valid(env, seed, s) && |s.record| < TargetPosts
    ensures var t := Iterate(env, s).state;
      && Valid(env, seed, t)
      && (s.stopBrowsingForward ==> t.stopBrowsingForward)
      && (s.stopBrowsingBackward ==> t.stopBrowsingBackward)
      && (|| t.record == s.record || t.record == s.record + [Last(t)]
          || t.record == [First(t)] + s.record || t.record == [First(t)] + s.record + [Last(t)])
  {
    IterateKeepsValid(env, seed, s);
    var first := First(s);
    var last := Last(s);
    if (!Truthy(first.train.fromPostId) && !Truthy(last.train.toPostId)) ||
       (s.stopBrowsingBackward && s.stopBrowsingForward) {
      return;
    }
    ForwardShape(env, seed, s);
    AfterForwardKeepsValid(env, seed, s);
    var (s1, continued) := AfterForward(env, s);
    if continued || |s1.record| >= TargetPosts {
      return;
    }
    BackwardShape(env, seed, s1);
    assert First(s1) == first;
  }

  /**
   * Where the posts one iteration adds come from: an appended post is the
   * station the last post's `toPostId` resolves to, a prepended one the station
   * the first post's `fromPostId` resolves to, each holding that station's
   * fetched timetable. An open forward direction with a link either grows or is
   * closed, and a direction is closed only by an attempt in that direction that
   * added nothing.
   */
  lemma IterateLinks(env: WalkEnv, seed: PostRecord, s: WalkState)
    requires Valid(env, seed, s) && |s.record| < TargetPosts
    ensures var t := Iterate(env, s).state;
      && t.record != []
      && (Last(t).offset != Last(s).offset ==>
            && !s.stopBrowsingForward && Truthy(Last(s).train.toPostId)
            && env.resolve(Last(s).train.toPostId.value) == Some(Last(t).postId)
            && env.fetch(Last(t).postId) == Some(Last(t).rows))
      && (First(t).offset != First(s).offset ==>
            && !s.stopBrowsingBackward && Truthy(First(s).train.fromPostId)
            && env.resolve(First(s).train.fromPostId.value) == Some(First(t).postId)
            && env.fetch(First(t).postId) == Some(First(t).rows))
      && (!s.stopBrowsingForward && Truthy(Last(s).train.toPostId) ==>
            Last(t).offset != Last(s).offset || t.stopBrowsingForward)
      && (t.stopBrowsingForward && !s.stopBrowsingForward ==>
            Last(t).offset == Last(s).offset && Truthy(Last(s).train.toPostId))
      && (t.stopBrowsingBackward && !s.stopBrowsingBackward ==>
            First(t).offset == First(s).offset && Truthy(First(s).train.fromPostId))
  {
    IterateKeepsValid(env, seed, s);
    var first := First(s);
    var last := Last(s);
    if (!Truthy(first.train.fromPostId) && !Truthy(last.train.toPostId)) ||
       (s.stopBrowsingBackward && s.stopBrowsingForward) {
      return;
    }
    ForwardShape(env, seed, s);
    AfterForwardKeepsValid(env, seed, s);
    var (s1, continued) := AfterForward(env, s);
    if continued || |s1.record| >= TargetPosts {
      return;
    }
    BackwardShape(env, seed, s1);
    assert First(s1) == first;
  }

  /**
   * The states in which an iteration leaves the record and both flags as they
   * were without exiting are exactly the `Stuck` ones; from such a state the loop
   * repeats the same iteration forever.
   */
  lemma StuckIff(env: WalkEnv, seed: PostRecord, s: WalkState)
    requires Valid(env, seed, s) && |s.record| < TargetPosts
    ensures Iterate(env, s) == Next(s) <==> Stuck(s)
  {
    IterateShape(env, seed, s);
    IterateLinks(env, seed, s);
    var first := First(s);
    var last := Last(s);
    if Iterate(env, s) == Next(s) {
      // nothing was added, so any attempt would have closed its direction
      assert !(Truthy(last.train.toPostId) && !s.stopBrowsingForward);
      var (s1, continued) := AfterForward(env, s);
      assert s1 == s;
      assert !(Truthy(first.train.fromPostId) && !s.stopBrowsingBackward);
    }
  }

  /** Every iteration that changes the state lowers the measure. */
  lemma IterateProgress(env: WalkEnv, seed: PostRecord, s: WalkState)
    requires Valid(env, seed, s) && |s.record| < TargetPosts && !Stuck(s)
    requires Iterate(env, s).Next?
    ensures Measure(Iterate(env, s).state) < Measure(s)
  {
    IterateShape(env, seed, s);
    StuckIff(env, seed, s);
    var t := Iterate(env, s).state;
    if |t.record| == |s.record| {
      assert t.record == t.record[0..|s.record|];
      assert t.record == s.record;
    }
  }

  /**
   * An iteration exits by its own `break`s only when seven posts are held, or,
   * leaving the state untouched, when neither end has a link or both directions
   * are closed.
   */
  lemma IterateExit(env: WalkEnv, seed: PostRecord, s: WalkState)
    requires Valid(env, seed, s) && |s.record| < TargetPosts
    requires Iterate(env, s).Exit?
    ensures var t := Iterate(env, s).state;
      || |t.record| == TargetPosts
      || (t == s && !Truthy(First(s).train.fromPostId) && !Truthy(Last(s).train.toPostId))
      || (t == s && s.stopBrowsingBackward && s.stopBrowsingForward)
  {
    IterateKeepsValid(env, seed, s);
  }

  /**
   * The whole walk from a valid state: `Completed` when the loop ends, `Spins`
   * at the state from which it would repeat one iteration forever.
   */
  function Walk(env: WalkEnv, ghost seed: PostRecord, s: WalkState): (r: WalkOutcome)
    requires Valid(env, seed, s)
    ensures r.Completed? ==> |r.final.record| >= |s.record|
    ensures r.Spins? ==> r.at.record != [] && |r.at.record| < TargetPosts && Stuck(r.at)
    ensures s.stopBrowsingForward ==> (if r.Completed? then r.final else r.at).stopBrowsingForward
    decreases Measure(s)
  {
    if |s.record| >= TargetPosts then Completed(s)
    else if Stuck(s) then Spins(s)
    else
      match Iterate(env, s)
      case Exit(t) => Completed(t)
      case Next(t) =>
        IterateKeepsValid(env, seed, s);
        IterateProgress(env, seed, s);
        Walk(env, seed, t)
  }

  /**
   * What the walk guarantees: a completed walk holds at most seven posts with
   * contiguous offsets, the seed at offset 0 and the base train's row at every
   * post, and it ended for one of the loop's three reasons; a spinning walk
   * stopped in a state that one iteration leaves unchanged.
   */
  lemma {:induction false} WalkOutcomeSound(env: WalkEnv, seed: PostRecord, s: WalkState)
    requires Valid(env, seed, s)
    ensures Walk(env, seed, s).Completed? ==>
      var t := Walk(env, seed, s).final;
      && Valid(env, seed, t)
      && (forall i :: 0 <= i < |t.record| ==> t.record[i].train.trainNoLocal == env.baseTrainNumber)
      && (|t.record| == TargetPosts
          || (!Truthy(First(t).train.fromPostId) && !Truthy(Last(t).train.toPostId))
          || (t.stopBrowsingBackward && t.stopBrowsingForward))
    ensures Walk(env, seed, s).Spins? ==>
      var t := Walk(env, seed, s).at;
      Valid(env, seed, t) && |t.record| < TargetPosts && Stuck(t) && Iterate(env, t) == Next(t)
    decreases Measure(s)
  {
    if |s.record| >= TargetPosts {
    } else if Stuck(s) {
      StuckIff(env, seed, s);
    } else {
      IterateKeepsValid(env, seed, s);
      match Iterate(env, s)
      case Exit(t) =>
        IterateExit(env, seed, s);
      case Next(t) =>
        IterateProgress(env, seed, s);
        WalkOutcomeSound(env, seed, t);
    }
    if Walk(env, seed, s).Completed? {
      var t := Walk(env, seed, s).final;
      forall i | 0 <= i < |t.record| ensures t.record[i].train.trainNoLocal == env.baseTrainNumber {
        assert FindTrain(t.record[i].rows, env.baseTrainNumber) == Some(t.record[i].train);
        FindTrainSpec(t.record[i].rows, env.baseTrainNumber);
      }
    }
  }

  /** One unfolding of `Walk` at a state the loop iterates from. */
  lemma WalkStep(env: WalkEnv, seed: PostRecord, s: WalkState)
    requires Valid(env, seed, s) && |s.record| < TargetPosts && !Stuck(s)
    ensures Valid(env, seed, Iterate(env, s).state)
    ensures Iterate(env, s).Exit? ==> Walk(env, seed, s) == Completed(Iterate(env, s).state)
    ensures Iterate(env, s).Next? ==>
      Walk(env, seed, s) == Walk(env, seed, Iterate(env, s).state) && Measure(Iterate(env, s).state) < Measure(s)
  {
    IterateKeepsValid(env, seed, s);
    if Iterate(env, s).Next? {
      IterateProgress(env, seed, s);
    }
  }

  /**
   * The mutable state of one walk, as the source's closure holds it: the record
   * array and the two flags, with the base train number, station resolution and
   * fetch fixed for the walk.
   */
  class ChainWalker {
    const env: WalkEnv
    ghost const seed: PostRecord
    var record: seq<PostRecord>
    var stopBrowsingBackward: bool
    var stopBrowsingForward: bool

    function State(): WalkState
      reads this
    {
      WalkState(record, stopBrowsingBackward, stopBrowsingForward)
    }

    ghost predicate Invariant()
      reads this
    {
      Valid(env, seed, State())
    }

    /** `record.push([0, post, timetable, trainObj])` with both directions open. */
    constructor (env: WalkEnv, post: string, timetable: seq<TimetableRow>, trainObj: TimetableRow)
      requires FindTrain(timetable, env.baseTrainNumber) == Some(trainObj)
      ensures this.env == env && seed == PostRecord(0, post, timetable, trainObj)
      ensures State() == Seed(post, timetable, trainObj) && Invariant()
    {
      this.env := env;
      seed := PostRecord(0, post, timetable, trainObj);
      record := [PostRecord(0, post, timetable, trainObj)];
      stopBrowsingBackward := false;
      stopBrowsingForward := false;
      new;
      SeedValid(env, post, timetable, trainObj);
    }

    /**
     * `pushRecord(offset, postId)`: fetch the post's timetable, find the base
     * train in it, and splice the new post in at the end (positive offset) or at
     * the front; `false`, with the record untouched, when either step fails.
     */
    method PushRecord(offset: int, postId: string) returns (ok: bool)
      modifies this`record
      ensures ok <==> Pushed(env, old(record), offset, postId).Some?
      ensures record == if ok then Pushed(env, old(record), offset, postId).value else old(record)
    {
      var tt := env.fetch(postId);
      if tt.None? {
        return false;
      }
      var train := FindTrain(tt.value, env.baseTrainNumber);
      if train.None? {
        return false;
      }
      var insertAt := 0;
      if offset > 0 {
        insertAt := |record|;
      }
      record := record[..insertAt] + [PostRecord(offset, postId, tt.value, train.value)] + record[insertAt..];
      return true;
    }

    /**
     * The forward half of the loop body: follow the last post's `toPostId` when
     * it is truthy and forward browsing is open. `continued` is the `continue`
     * taken when the link resolves to no station.
     */
    method BrowseForward(last: PostRecord) returns (continued: bool)
      requires record != [] && last == Last(State())
      modifies this`record, this`stopBrowsingForward
      ensures (State(), continued) == AfterForward(env, old(State()))
    {
      continued := false;
      ghost var attempt := TryExtend(env, record, last.train.toPostId, stopBrowsingForward, last.offset + 1);
      if Truthy(last.train.toPostId) && !stopBrowsingForward {
        var sid := env.resolve(last.train.toPostId.value);
        if !Truthy(sid) {
          stopBrowsingForward := true;
          return true;
        }
        var ok := PushRecord(last.offset + 1, sid.value);
        if !ok {
          stopBrowsingForward := true;
        } else {
          assert attempt == Added(record);
        }
      }
    }

    /**
     * The backward half of the loop body: follow `first`'s `fromPostId` (the
     * first post as read at the start of the body) when it is truthy and
     * backward browsing is open.
     */
    method BrowseBackward(first: PostRecord)
      modifies this`record, this`stopBrowsingBackward
      ensures State() == AfterBackward(env, old(State()), first)
    {
      ghost var attempt := TryExtend(env, record, first.train.fromPostId, stopBrowsingBackward, first.offset - 1);
      if Truthy(first.train.fromPostId) && !stopBrowsingBackward {
        var sid := env.resolve(first.train.fromPostId.value);
        if !Truthy(sid) {
          stopBrowsingBackward := true;
          return;
        }
        var ok := PushRecord(first.offset - 1, sid.value);
        if !ok {
          stopBrowsingBackward := true;
        } else {
          assert attempt == Added(record);
        }
      }
    }

    /**
     * One pass of the loop body: read `first` and `last`, take the two `break`s
     * that need no browsing, browse forward, stop at seven posts, browse
     * backward. `exit` says the body ended in a `break`.
     */
    method Step() returns (exit: bool)
      requires record != []
      modifies this`record, this`stopBrowsingBackward, this`stopBrowsingForward
      ensures Iterate(env, old(State())) == if exit then Exit(State()) else Next(State())
    {
      var first := record[0];
      var last := record[|record| - 1];
      if !Truthy(first.train.fromPostId) && !Truthy(last.train.toPostId) {
        return true;
      }
      if stopBrowsingBackward && stopBrowsingForward {
        return true;
      }
      var continued := BrowseForward(last);
      if continued {
        return false;
      }
      if |record| >= TargetPosts {
        return true;
      }
      BrowseBackward(first);
      return false;
    }

    /**
     * `while (record.length < 7)`: the walk itself. Where the source would repeat
     * one iteration forever (`Stuck`) the method stops and answers `true`; the
     * state it stops in is the one `Walk` reports as `Spins`. Otherwise the final
     * state is the one `Walk` completes with.
     */
    method Run() returns (spins: bool)
      requires Invariant()
      modifies this`record, this`stopBrowsingBackward, this`stopBrowsingForward
      ensures Invariant()
      ensures Walk(env, seed, old(State())) == if spins then Spins(State()) else Completed(State())
      ensures State() == WalkFixed(env, seed, old(State()))
    {
      WalkFixedAgrees(env, seed, State());
      spins := false;
      while |record| < TargetPosts
        invariant Invariant()
        invariant Walk(env, seed, State()) == Walk(env, seed, old(State()))
        decreases Measure(State())
      {
        if Stuck(State()) {
          return true;
        }
        WalkStep(env, seed, State());
        var exit := Step();
        if exit {
          break;
        }
      }
    }
  }

  /**
   * Runs a whole walk from the base train at the current post and returns the
   * state it ends in, `spins` marking a walk the source would never finish.
   */
  method WalkFromPost(env: WalkEnv, post: string, timetable: seq<TimetableRow>, trainObj: TimetableRow)
    returns (final: WalkState, spins: bool)
    requires FindTrain(timetable, env.baseTrainNumber) == Some(trainObj)
    ensures var seed := PostRecord(0, post, timetable, trainObj);
      && Valid(env, seed, final)
      && Walk(env, seed, Seed(post, timetable, trainObj)) == (if spins then Spins(final) else Completed(final))
      && final == WalkFixed(env, seed, Seed(post, timetable, trainObj))
  {
    var walker := new ChainWalker(env, post, timetable, trainObj);
    spins := walker.Run();
    final := walker.State();
  }

  /** What the effect that starts a walk decides. */
  datatype WalkStart = Skip | RefreshBaseTrain | Start(trainObj: TimetableRow)

  /**
   * The guards before a walk: nothing happens while the base train is
   * `"PENDING"`, the server code is empty or the station codes are not loaded;
   * a base train missing from the timetable asks for a new base train; otherwise
   * the walk starts from the row `find` returns.
   */
  function StartWalk(baseTrainNumber: string, serverCode: string, stationCodesLoaded: bool,
                     timetable: seq<TimetableRow>): (r: WalkStart)
    ensures r.Skip? <==> baseTrainNumber == "PENDING" || serverCode == "" || !stationCodesLoaded
    ensures r.RefreshBaseTrain? <==>
      && !r.Skip?
      && forall i :: 0 <= i < |timetable| ==> timetable[i].trainNoLocal != baseTrainNumber
    ensures r.Start? ==>
      && FindTrain(timetable, baseTrainNumber) == Some(r.trainObj)
      && r.trainObj.trainNoLocal == baseTrainNumber
      && r.trainObj in timetable
  {
    if baseTrainNumber == "PENDING" || serverCode == "" || !stationCodesLoaded then Skip
    else
      FindTrainSpec(timetable, baseTrainNumber);
      match FindTrain(timetable, baseTrainNumber)
      case None => RefreshBaseTrain
      case Some(t) => Start(t)
  }

  /** A started walk begins from a valid state. */
  lemma StartWalkValid(env: WalkEnv, serverCode: string, stationCodesLoaded: bool, post: string,
                       timetable: seq<TimetableRow>)
    requires StartWalk(env.baseTrainNumber, serverCode, stationCodesLoaded, timetable).Start?
    ensures var t := StartWalk(env.baseTrainNumber, serverCode, stationCodesLoaded, timetable).trainObj;
      Valid(env, PostRecord(0, post, timetable, t), Seed(post, timetable, t))
  {
    var t := StartWalk(env.baseTrainNumber, serverCode, stationCodesLoaded, timetable).trainObj;
    SeedValid(env, post, timetable, t);
  }

  /**
   * A concrete walk that never ends: the base train starts at the current post
   * (no `fromPostId`), and the next post's timetable cannot be fetched. The
   * first iteration closes forward browsing; from then on every iteration
   * skips both directions and no `break` fires.
   */
  lemma SpinsAtTerminus()
    ensures var train := TimetableRow("1", "EC", None, None, Some("A"), Some("12"), 0, 0);
      var env := WalkEnv("1", link => Some("B"), postId => None);
      var seed := PostRecord(0, "A", [train], train);
      Walk(env, seed, Seed("A", [train], train)) == Spins(WalkState([seed], false, true))
  {
    var train := TimetableRow("1", "EC", None, None, Some("A"), Some("12"), 0, 0);
    var env := WalkEnv("1", link => Some("B"), postId => None);
    var seed := PostRecord(0, "A", [train], train);
    var s := Seed("A", [train], train);
    SeedValid(env, "A", [train], train);
    assert !Stuck(s);
    assert TryExtend(env, s.record, train.toPostId, false, 1) == Refused;
    var t := WalkState([seed], false, true);
    assert Iterate(env, s) == Next(t);
    IterateKeepsValid(env, seed, s);
    assert Stuck(t);
  }

  /**
   * The evidently intended loop exit: stop once neither end can be extended,
   * that is when each direction is closed or has no link at its end. The two
   * `break`s of the source are special cases of it.
   */
  predicate NoWayOn(s: WalkState)
    requires s.record != []
  {
    (s.stopBrowsingBackward || !Truthy(First(s).train.fromPostId)) &&
    (s.stopBrowsingForward || !Truthy(Last(s).train.toPostId))
  }

  /** The loop body with the corrected exit test in place of the first two `break`s. */
  function IterateFixed(env: WalkEnv, s: WalkState): Iteration
    requires s.record != []
  {
    if NoWayOn(s) then Exit(s) else Iterate(env, s)
  }

  /** The corrected exit fires exactly where a source `break` fires or where the source spins. */
  lemma NoWayOnIff(s: WalkState)
    requires s.record != []
    ensures NoWayOn(s) <==>
      || (!Truthy(First(s).train.fromPostId) && !Truthy(Last(s).train.toPostId))
      || (s.stopBrowsingBackward && s.stopBrowsingForward)
      || Stuck(s)
  {
  }

  /** Every iteration of the corrected loop that does not exit lowers the measure. */
  lemma IterateFixedProgress(env: WalkEnv, seed: PostRecord, s: WalkState)
    requires Valid(env, seed, s) && |s.record| < TargetPosts
    requires IterateFixed(env, s).Next?
    ensures Valid(env, seed, IterateFixed(env, s).state)
    ensures Measure(IterateFixed(env, s).state) < Measure(s)
  {
    IterateKeepsValid(env, seed, s);
    IterateProgress(env, seed, s);
  }

  /** The corrected walk: it always ends. */
  function WalkFixed(env: WalkEnv, ghost seed: PostRecord, s: WalkState): (t: WalkState)
    requires Valid(env, seed, s)
    ensures Valid(env, seed, t)
    ensures |t.record| == TargetPosts || NoWayOn(t)
    decreases Measure(s)
  {
    if |s.record| >= TargetPosts then s
    else
      match IterateFixed(env, s)
      case Exit(t) =>
        IterateKeepsValid(env, seed, s);
        if NoWayOn(s) then t
        else
          IterateExit(env, seed, s);
          t
      case Next(t) =>
        IterateFixedProgress(env, seed, s);
        WalkFixed(env, seed, t)
  }

  /**
   * The corrected walk agrees with the source's wherever the source's ends, and
   * ends where the source's spins, in the state the source spins in.
   */
  lemma {:induction false} WalkFixedAgrees(env: WalkEnv, seed: PostRecord, s: WalkState)
    requires Valid(env, seed, s)
    ensures WalkFixed(env, seed, s) == match Walk(env, seed, s)
                                       case Completed(t) => t
                                       case Spins(t) => t
    decreases Measure(s)
  {
    if |s.record| < TargetPosts && !Stuck(s) && !NoWayOn(s) {
      match Iterate(env, s)
      case Exit(t) =>
      case Next(t) =>
        IterateFixedProgress(env, seed, s);
        WalkFixedAgrees(env, seed, t);
    }
  }
}

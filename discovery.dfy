/** The discovery screen: loading the candidate queue, the cursor into it,
    recording each swipe in `likes` and creating a `matches` row when the
    like is reciprocated. */
module Discovery {
  import opened Rows

  /** `limit(20)` of the candidate query. */
  const BatchSize: nat := 20

  const SeekingAll: string := "Todos"
  const SeekingMen: string := "Hombres"
  const Man: string := "Hombre"
  const Woman: string := "Mujer"

  /** The gender filter for the user's `seeking`: only "Todos" disables it;
      "Hombres" selects men and every other value (including a missing one)
      selects women. */
  function GenderFilter(seeking: string): (r: Option<string>)
    ensures r == None <==> seeking == SeekingAll
    ensures r == Some(Man) <==> seeking == SeekingMen
    ensures seeking != SeekingAll && seeking != SeekingMen ==> r == Some(Woman)
  {
    if seeking == SeekingAll then None
    else Some(if seeking == SeekingMen then Man else Woman)
  }

  /** `me` has a `likes` row, like or dislike, about `target`. */
  predicate Decided(likes: seq<LikeRow>, me: UserId, target: UserId)
  {
    exists i :: 0 <= i < |likes| && likes[i].user == me && likes[i].target == target
  }

  /** The `liked_user_id` of every `likes` row of `me`, in table order. */
  function DecidedTargets(likes: seq<LikeRow>, me: UserId): (r: seq<UserId>)
    ensures |r| <= |likes|
    ensures forall x :: x in r <==> Decided(likes, me, x)
    decreases |likes|
  {
    if likes == [] then []
    else
      var rest := DecidedTargets(likes[1..], me);
      (if likes[0].user == me then [likes[0].target] else []) + rest
  }

  /** The exclusion list of `loadProfiles`: the targets of the user's own
      rows, then the user's own id. When the `likes` query fails its data is
      null and only the user's id is excluded. */
  function ExcludedIds(likes: seq<LikeRow>, me: UserId, likesFetched: bool): (r: seq<UserId>)
    ensures |r| > 0 && r[|r| - 1] == me
    ensures forall x :: x in r <==> x == me || (likesFetched && Decided(likes, me, x))
  {
    (if likesFetched then DecidedTargets(likes, me) else []) + [me]
  }

  /** The filters of the candidate query. */
  predicate Eligible(p: Profile, excluded: seq<UserId>, gender: Option<string>)
  {
    p.location == Leon && p.id !in excluded && (gender.Some? ==> p.gender == gender.value)
  }

  /** The backend's answer to the candidate query over the `profiles` table
      `rows`: the eligible rows in table order, at most `limit` of them. */
  function Query(rows: seq<Profile>, excluded: seq<UserId>, gender: Option<string>, limit: nat)
    : (r: seq<Profile>)
    ensures |r| <= limit && |r| <= |rows|
    ensures forall i :: 0 <= i < |r| ==> r[i] in rows && Eligible(r[i], excluded, gender)
    ensures |r| < limit ==>
              forall i :: 0 <= i < |rows| && Eligible(rows[i], excluded, gender) ==> rows[i] in r
    ensures DistinctIds(rows) ==> DistinctIds(r)
    decreases |rows|
  {
    if rows == [] || limit == 0 then []
    else if Eligible(rows[0], excluded, gender) then
      var rest := Query(rows[1..], excluded, gender, limit - 1);
      [rows[0]] + rest
    else
      var rest := Query(rows[1..], excluded, gender, limit);
      rest
  }

  /** The queue `loadProfiles` installs for `me`, given the `profiles` and
      `likes` tables: never the user, never someone the user already
      decided on (when that list could be read), only León, only the sought
      gender, at most 20, and, when fewer than 20 came back, every eligible
      row. */
  function Candidates(rows: seq<Profile>, likes: seq<LikeRow>, me: Profile, likesFetched: bool)
    : (r: seq<Profile>)
    ensures |r| <= BatchSize
    ensures forall i :: 0 <= i < |r| ==> r[i] in rows && r[i].id != me.id && r[i].location == Leon
    ensures me.seeking != SeekingAll ==>
              forall i :: 0 <= i < |r| ==> r[i].gender == (if me.seeking == SeekingMen then Man else Woman)
    ensures likesFetched ==> forall i :: 0 <= i < |r| ==> !Decided(likes, me.id, r[i].id)
    ensures |r| < BatchSize ==>
              forall i :: 0 <= i < |rows| &&
                          Eligible(rows[i], ExcludedIds(likes, me.id, likesFetched), GenderFilter(me.seeking))
                          ==> rows[i] in r
    ensures DistinctIds(rows) ==> DistinctIds(r)
  {
    Query(rows, ExcludedIds(likes, me.id, likesFetched), GenderFilter(me.seeking), BatchSize)
  }

  /** The number of rows of `likes` saying that `from` likes `to`. */
  function LikeCount(likes: seq<LikeRow>, from: UserId, to: UserId): (n: nat)
    ensures n <= |likes|
    ensures n > 0 <==> LikeRow(from, to, true) in likes
    decreases |likes|
  {
    if likes == [] then 0
    else (if likes[0] == LikeRow(from, to, true) then 1 else 0) + LikeCount(likes[1..], from, to)
  }

  /** The reciprocal-like lookup with `.single()`: it yields a row only when
      exactly one row matches; none or several rows both yield nothing. */
  predicate ReciprocalFound(likes: seq<LikeRow>, from: UserId, to: UserId)
    ensures ReciprocalFound(likes, from, to) ==> LikeRow(from, to, true) in likes
  {
    LikeCount(likes, from, to) == 1
  }

  /** Two identical like rows make `.single()` fail, so the lookup finds
      nothing and no match is created. */
  lemma {:induction false} DuplicateLikesHideMatch(likes: seq<LikeRow>, from: UserId, to: UserId, i: nat, j: nat)
    requires i < j < |likes|
    requires likes[i] == LikeRow(from, to, true) && likes[j] == LikeRow(from, to, true)
    ensures LikeCount(likes, from, to) >= 2
    ensures !ReciprocalFound(likes, from, to)
    decreases |likes|
  {
    if i > 0 {
      DuplicateLikesHideMatch(likes[1..], from, to, i - 1, j - 1);
    } else {
      assert likes[1..][j - 1] == likes[j];
    }
  }

  /** How a swipe ends. `Exhausted` is the source's exception when a button
      swipe finds no card; it happens before any state change. */
  datatype SwipeOutcome = Exhausted | Disliked | LikedNoMatch | Matched(partner: Profile)

  /** The discovery state of one signed-in user: the queue and cursor
      (`profiles`, `currentProfileIndex`) and the `likes` and `matches`
      tables as far as this client changes them. */
  class Session {
    const me: Profile
    var profiles: seq<Profile>
    var index: nat
    var likes: seq<LikeRow>
    var matches: seq<MatchRow>

    ghost predicate Valid()
      reads this
    {
      index <= |profiles|
    }

    /** No profile still ahead of the cursor has been decided on. */
    predicate Undecided()
      reads this
    {
      forall j :: index <= j < |profiles| ==> !Decided(likes, me.id, profiles[j].id)
    }

    /** Every match row is backed by likes in both directions. */
    predicate MatchesBacked()
      reads this
    {
      forall m :: m in matches ==>
        LikeRow(m.user1, m.user2, true) in likes && LikeRow(m.user2, m.user1, true) in likes
    }

    constructor (me: Profile, likes: seq<LikeRow>, matches: seq<MatchRow>)
      ensures Valid()
      ensures this.me == me && this.likes == likes && this.matches == matches
      ensures profiles == [] && index == 0
    {
      this.me := me;
      this.likes := likes;
      this.matches := matches;
      profiles := [];
      index := 0;
    }

    /** `renderCurrentProfile`'s test: the card at the cursor, or `None`
        when the queue is exhausted. */
    function Current(): (r: Option<Profile>)
      reads this
      ensures r.None? <==> index >= |profiles|
      ensures r.Some? ==> index < |profiles| && r.value == profiles[index]
    {
      if index >= |profiles| then None else Some(profiles[index])
    }

    /** `loadProfiles` against the `profiles` table `rows`. `likesFetched`
        says whether the query of the user's own likes succeeded;
        `queryOk` whether the candidate query did (on failure the source
        only shows a toast). */
    method LoadProfiles(rows: seq<Profile>, likesFetched: bool, queryOk: bool)
      modifies this
      ensures likes == old(likes) && matches == old(matches)
      ensures !queryOk ==> profiles == old(profiles) && index == old(index)
      ensures queryOk ==> profiles == Candidates(rows, likes, me, likesFetched) && index == 0
      ensures old(Valid()) || queryOk ==> Valid()
      ensures queryOk && likesFetched ==> Undecided()
      ensures queryOk && DistinctIds(rows) ==> DistinctIds(profiles)
    {
      var likedIds := if likesFetched then DecidedTargets(likes, me.id) else [];
      likedIds := likedIds + [me.id];
      assert likedIds == ExcludedIds(likes, me.id, likesFetched);
      if !queryOk {
        return;
      }
      profiles := Query(rows, likedIds, GenderFilter(me.seeking), BatchSize);
      index := 0;
    }

    /** `createMatch`: appends the match row `(me, partner)`. The source
        does not check the insert's result; `stored` says whether the
        backend kept the row. */
    method CreateMatch(partner: Profile, stored: bool)
      modifies this
      ensures profiles == old(profiles) && index == old(index) && likes == old(likes)
      ensures matches == old(matches) + (if stored then [MatchRow(me.id, partner.id)] else [])
    {
      if stored {
        matches := matches + [MatchRow(me.id, partner.id)];
      }
    }

    /** `handleSwipe`, with the 300 ms advance of the cursor taken as part
        of the same step. The like/dislike row goes to `likes` (if the
        backend keeps it: `likeStored`); only a like looks for the
        reciprocal like, and a match row is created exactly when it is
        found. `lookupOk` says whether that lookup reached the table: when
        it fails its data is null and no match is made. */
    method Swipe(action: Action, likeStored: bool, lookupOk: bool, matchStored: bool)
      returns (outcome: SwipeOutcome)
      requires Valid()
      modifies this
      ensures Valid() && profiles == old(profiles)
      ensures old(index) >= |profiles| ==>
                outcome == Exhausted && index == old(index) &&
                likes == old(likes) && matches == old(matches)
      ensures old(index) < |profiles| ==>
                var target := profiles[old(index)];
                && index == old(index) + 1
                && likes == old(likes) + (if likeStored then [LikeRow(me.id, target.id, action == Like)] else [])
                && (action == Dislike ==> outcome == Disliked)
                && (action == Like ==>
                      outcome == if lookupOk && ReciprocalFound(likes, target.id, me.id) then Matched(target) else LikedNoMatch)
                && matches == old(matches) + (if outcome.Matched? && matchStored then [MatchRow(me.id, target.id)] else [])
      ensures outcome.Matched? ==> action == Like && LikeRow(outcome.partner.id, me.id, true) in likes
      ensures old(MatchesBacked()) && likeStored ==> MatchesBacked()
      ensures old(Undecided()) && DistinctIds(profiles) ==> Undecided()
      ensures old(Undecided()) && old(index) < |profiles| ==> !Decided(old(likes), me.id, profiles[old(index)].id)
    {
      if index >= |profiles| {
        return Exhausted;
      }
      var target := profiles[index];
      index := index + 1;
      if likeStored {
        likes := likes + [LikeRow(me.id, target.id, action == Like)];
      }
      if action == Like {
        if lookupOk && ReciprocalFound(likes, target.id, me.id) {
          CreateMatch(target, matchStored);
          outcome := Matched(target);
        } else {
          outcome := LikedNoMatch;
        }
      } else {
        outcome := Disliked;
      }
    }
  }

  /** An example user: U1, a man in León seeking "Todos", and three León
      profiles P2, P3 (a man) and P4. */
  function ExampleUser(): Profile
  {
    Profile("U1", "", "", None, Man, SeekingAll, "", "", Leon)
  }

  function ExampleRows(): seq<Profile>
  {
    var me := ExampleUser();
    [me.(id := "P2", gender := Woman), me.(id := "P3"), me.(id := "P4", gender := Woman)]
  }

  /** The `profiles` table of the example: U1's own row, then the others. */
  function ExampleTable(): seq<Profile>
  {
    [ExampleUser()] + ExampleRows()
  }

  /** The query over the other three rows keeps them all. */
  lemma ExampleRowsQuery(excluded: seq<UserId>)
    requires excluded == ["U1"]
    ensures Query(ExampleRows(), excluded, None, BatchSize) == ExampleRows()
  {
    var rows := ExampleRows();
    assert rows[1..] == [rows[1], rows[2]] && rows[1..][1..] == [rows[2]];
    assert Query([rows[2]], excluded, None, BatchSize - 2) == [rows[2]];
    assert Query(rows[1..], excluded, None, BatchSize - 1) == rows[1..];
  }

  /** U1's queue over the example table: every row but U1's own. */
  lemma ExampleCandidates()
    ensures Candidates(ExampleTable(), [LikeRow("P2", "U1", true)], ExampleUser(), true) == ExampleRows()
  {
    var excluded := ExcludedIds([LikeRow("P2", "U1", true)], "U1", true);
    assert excluded == ["U1"];
    assert GenderFilter(SeekingAll) == None;
    assert ExampleTable()[1..] == ExampleRows() && !Eligible(ExampleTable()[0], excluded, None);
    ExampleRowsQuery(excluded);
  }

  /** A client of `loadProfiles`: U1 has been liked by P2 and has decided on
      nobody, so the whole table except U1's own row becomes the queue and
      P2 is the first card. */
  method LoadExample() returns (s: Session, first: Option<Profile>)
    ensures fresh(s) && s.Valid() && s.me == ExampleUser()
    ensures s.profiles == ExampleRows() && s.index == 0
    ensures s.likes == [LikeRow("P2", "U1", true)] && s.matches == []
    ensures first.Some? && first.value.id == "P2"
  {
    s := new Session(ExampleUser(), [LikeRow("P2", "U1", true)], []);
    s.LoadProfiles(ExampleTable(), true, true);
    ExampleCandidates();
    first := s.Current();
  }

  /** A client of `handleSwipe` on that queue: liking P2 matches, since P2
      liked U1 first; disliking P3 and liking P4 create no match; one more
      swipe finds the queue exhausted. */
  method SwipeExample(s: Session) returns (outcomes: seq<SwipeOutcome>)
    requires s.Valid() && s.me == ExampleUser()
    requires s.profiles == ExampleRows() && s.index == 0
    requires s.likes == [LikeRow("P2", "U1", true)] && s.matches == []
    modifies s
    ensures |outcomes| == 4 && outcomes[0].Matched? && outcomes[0].partner.id == "P2"
    ensures outcomes[1..] == [Disliked, LikedNoMatch, Exhausted]
    ensures s.matches == [MatchRow("U1", "P2")]
  {
    var liked := [LikeRow("P2", "U1", true), LikeRow("U1", "P2", true)];
    assert LikeCount(liked, "P2", "U1") == 1 by {
      assert liked[1..][1..] == [];
    }
    var o1 := s.Swipe(Like, true, true, true);
    var o2 := s.Swipe(Dislike, true, true, true);
    var afterThird := liked + [LikeRow("U1", "P3", false), LikeRow("U1", "P4", true)];
    assert s.likes + [LikeRow("U1", "P4", true)] == afterThird;
    assert LikeRow("P4", "U1", true) !in afterThird;
    var o3 := s.Swipe(Like, true, true, true);
    var o4 := s.Swipe(Like, true, true, true);
    outcomes := [o1, o2, o3, o4];
  }
}

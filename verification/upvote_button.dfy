/** The upvote toggle of a feed card (components/UpvoteButton.tsx): whom the
    vote is cast as, whether this user has voted, the button's title and
    state, and the transaction a click sends. The transaction is returned as
    data; sending it and the database that applies it are modelled by
    `Apply` on a store holding this meme's votes and count. */
module UpvoteButton {
  import opened Wrappers
  import opened Types
  import opened Boxes

  /** The user's id and e-mail, in that order, with absent ones dropped. */
  function Identifiers(user: User): (r: seq<string>)
    ensures forall k :: 0 <= k < |r| ==> r[k] != ""
    ensures forall x :: x in r <==> x != "" && (x == user.id || x == user.email)
    ensures user.id != "" ==> |r| > 0 && r[0] == user.id
  {
    (if user.id != "" then [user.id] else []) + (if user.email != "" then [user.email] else [])
  }

  /** The identifier a new vote is recorded under: the first one. */
  function Acting(user: User): (r: Option<string>)
    ensures r.None? <==> user.id == "" && user.email == ""
    ensures r.Some? ==> r.value in Identifiers(user) && r.value != ""
    ensures user.id != "" ==> r == Some(user.id)
    ensures user.id == "" && user.email != "" ==> r == Some(user.email)
  {
    var ids := Identifiers(user);
    if |ids| > 0 then Some(ids[0]) else None
  }

  /** The first vote cast under any of the identifiers. */
  function ExistingVote(votes: seq<Vote>, ids: seq<string>): (r: Option<Vote>)
    ensures r.None? <==> forall k :: 0 <= k < |votes| ==> votes[k].userId !in ids
    ensures r.Some? ==> r.value in votes && r.value.userId in ids
    ensures r.Some? ==>
      exists k :: 0 <= k < |votes| && votes[k] == r.value && (forall j :: 0 <= j < k ==> votes[j].userId !in ids)
  {
    if |ids| == 0 || |votes| == 0 then None
    else if votes[0].userId in ids then Some(votes[0])
    else
      var rest := ExistingVote(votes[1..], ids);
      if rest.Some? then
        ghost var k :| 0 <= k < |votes[1..]| && votes[1..][k] == rest.value
          && (forall j :: 0 <= j < k ==> votes[1..][j].userId !in ids);
        assert votes[k + 1] == rest.value;
        rest
      else
        assert forall k :: 1 <= k < |votes| ==> votes[k] == votes[1..][k - 1];
        rest
  }

  predicate HasVoted(votes: seq<Vote>, user: User) {
    ExistingVote(votes, Identifiers(user)).Some?
  }

  /** The user has voted exactly when some vote is recorded under their id or
      their e-mail. */
  lemma HasVotedIff(votes: seq<Vote>, user: User)
    ensures HasVoted(votes, user) <==>
      exists k :: 0 <= k < |votes| && votes[k].userId != ""
        && (votes[k].userId == user.id || votes[k].userId == user.email)
  {
    var ids := Identifiers(user);
    if ExistingVote(votes, ids).None? {
      forall k | 0 <= k < |votes| ensures !(votes[k].userId != "" && (votes[k].userId == user.id || votes[k].userId == user.email)) {
        assert votes[k].userId !in ids;
      }
    }
  }

  /** The title and accessible label. */
  function Title(votes: seq<Vote>, user: User): (r: string)
    ensures Acting(user).None? ==> r == "Sign in to upvote"
    ensures Acting(user).Some? ==> r == (if HasVoted(votes, user) then "Remove upvote" else "Upvote")
  {
    if Acting(user).None? then "Sign in to upvote"
    else if HasVoted(votes, user) then "Remove upvote"
    else "Upvote"
  }

  /** The button is disabled signed out and while a vote is in flight. */
  function Disabled(user: User, isVoting: bool): (r: bool)
    ensures r <==> Acting(user).None? || isVoting
  {
    Acting(user).None? || isVoting
  }

  /** What a click sends: nothing; the deletion of the user's vote with the
      count lowered (never below 0); or one new vote under the acting
      identifier with the count raised. */
  datatype Transaction =
    | NoOp
    | Unvote(voteId: string, memeId: string, upvotes: int)
    | Cast(vote: Vote, upvotes: int)

  /** `handleUpvote`, given the fresh id `id()` would return and the clock
      reading `now`. */
  function Click(memeId: string, currentUpvotes: int, votes: seq<Vote>, user: User, isVoting: bool,
                 freshId: string, now: int): (r: Transaction)
    ensures r.NoOp? <==> Disabled(user, isVoting)
    ensures r.Unvote? <==> !Disabled(user, isVoting) && HasVoted(votes, user)
    ensures r.Unvote? ==>
      && r.voteId == ExistingVote(votes, Identifiers(user)).value.id && r.memeId == memeId
      && r.upvotes >= 0 && (currentUpvotes >= 1 ==> r.upvotes == currentUpvotes - 1)
      && (currentUpvotes < 1 ==> r.upvotes == 0)
    ensures r.Cast? ==>
      && r.vote == Vote(freshId, memeId, Acting(user).value, now)
      && r.upvotes == currentUpvotes + 1
  {
    if Acting(user).None? || isVoting then NoOp
    else
      var existing := ExistingVote(votes, Identifiers(user));
      if existing.Some? then Unvote(existing.value.id, memeId, if currentUpvotes - 1 > 0 then currentUpvotes - 1 else 0)
      else Cast(Vote(freshId, memeId, Acting(user).value, now), currentUpvotes + 1)
  }

  /** `isVoting` after the click settles: cleared whether the transaction
      succeeded or threw; a click that sent nothing leaves it alone. */
  function SettledVoting(tx: Transaction, isVoting: bool, succeeded: bool): (r: bool)
    ensures tx.NoOp? ==> r == isVoting
    ensures !tx.NoOp? ==> !r
  {
    if tx.NoOp? then isVoting else false
  }

  /** This meme's votes and stored count, as the feed sees them. */
  datatype Store = Store(votes: seq<Vote>, upvotes: int)

  /** The store without the votes whose id is `id`: the filter keeps every
      other vote, in order and as often as it occurs. */
  function DeleteVote(votes: seq<Vote>, id: string): (r: seq<Vote>)
    ensures forall v :: v in r <==> v in votes && v.id != id
    ensures (forall k :: 0 <= k < |votes| ==> votes[k].id != id) ==> r == votes
    ensures forall v :: multiset(r)[v] == if v.id == id then 0 else multiset(votes)[v]
    ensures IsSubsequence(r, votes)
  {
    WithoutFilters(votes, id);
    Without(votes, id)
  }

  /** The filter itself, one vote at a time. */
  function Without(votes: seq<Vote>, id: string): seq<Vote> {
    if |votes| == 0 then []
    else if votes[0].id == id then Without(votes[1..], id)
    else [votes[0]] + Without(votes[1..], id)
  }

  lemma {:induction false} WithoutFilters(votes: seq<Vote>, id: string)
    ensures var r := Without(votes, id);
      && (forall v :: v in r <==> v in votes && v.id != id)
      && ((forall k :: 0 <= k < |votes| ==> votes[k].id != id) ==> r == votes)
      && (forall v :: multiset(r)[v] == if v.id == id then 0 else multiset(votes)[v])
      && IsSubsequence(r, votes)
  {
    if |votes| > 0 {
      var rest := Without(votes[1..], id);
      WithoutFilters(votes[1..], id);
      WithoutMembers(votes, id, rest);
      WithoutUnchanged(votes, id, rest);
      WithoutCounts(votes, id, rest);
      WithoutSubsequence(votes, id, rest);
    }
  }

  // The steps of `WithoutFilters`: dropping or keeping the head in front of
  // the filtered tail keeps each property.

  lemma WithoutMembers(votes: seq<Vote>, id: string, rest: seq<Vote>)
    requires votes != []
    requires forall v :: v in rest <==> v in votes[1..] && v.id != id
    ensures var r := if votes[0].id == id then rest else [votes[0]] + rest;
      forall v :: v in r <==> v in votes && v.id != id
  {
    assert votes == [votes[0]] + votes[1..];
    assert forall v :: v in votes <==> v == votes[0] || v in votes[1..];
  }

  lemma WithoutUnchanged(votes: seq<Vote>, id: string, rest: seq<Vote>)
    requires votes != []
    requires (forall k :: 0 <= k < |votes[1..]| ==> votes[1..][k].id != id) ==> rest == votes[1..]
    ensures (forall k :: 0 <= k < |votes| ==> votes[k].id != id) ==>
      (if votes[0].id == id then rest else [votes[0]] + rest) == votes
  {
    if forall k :: 0 <= k < |votes| ==> votes[k].id != id {
      assert forall k :: 0 <= k < |votes[1..]| ==> votes[1..][k] == votes[k + 1];
      assert votes == [votes[0]] + votes[1..];
    }
  }

  lemma WithoutCounts(votes: seq<Vote>, id: string, rest: seq<Vote>)
    requires votes != []
    requires forall v :: multiset(rest)[v] == if v.id == id then 0 else multiset(votes[1..])[v]
    ensures var r := if votes[0].id == id then rest else [votes[0]] + rest;
      forall v :: multiset(r)[v] == if v.id == id then 0 else multiset(votes)[v]
  {
    assert votes == [votes[0]] + votes[1..];
    assert multiset(votes) == multiset{votes[0]} + multiset(votes[1..]);
    if votes[0].id != id {
      assert multiset([votes[0]] + rest) == multiset{votes[0]} + multiset(rest);
    }
  }

  lemma WithoutSubsequence(votes: seq<Vote>, id: string, rest: seq<Vote>)
    requires votes != [] && IsSubsequence(rest, votes[1..])
    ensures IsSubsequence(if votes[0].id == id then rest else [votes[0]] + rest, votes)
  {
    if votes[0].id != id {
      assert ([votes[0]] + rest)[1..] == rest;
    }
  }

  /** A transaction applied to the store. */
  function Apply(s: Store, tx: Transaction): (r: Store)
    ensures tx.NoOp? ==> r == s
    ensures tx.Unvote? ==> r == Store(DeleteVote(s.votes, tx.voteId), tx.upvotes)
    ensures tx.Cast? ==> r == Store(s.votes + [tx.vote], tx.upvotes)
  {
    match tx
    case NoOp => s
    case Unvote(voteId, _, upvotes) => Store(DeleteVote(s.votes, voteId), upvotes)
    case Cast(vote, upvotes) => Store(s.votes + [vote], upvotes)
  }

  /** Starting from a non-negative count, no click makes it negative. */
  lemma CountStaysNonNegative(memeId: string, s: Store, user: User, isVoting: bool, freshId: string, now: int)
    requires s.upvotes >= 0
    ensures Apply(s, Click(memeId, s.upvotes, s.votes, user, isVoting, freshId, now)).upvotes >= 0
  {
  }

  /** The vote cast by a user who had not voted is the one found afterwards. */
  lemma {:induction false} ExistingVoteAppended(votes: seq<Vote>, ids: seq<string>, v: Vote)
    requires forall k :: 0 <= k < |votes| ==> votes[k].userId !in ids
    requires v.userId in ids
    ensures ExistingVote(votes + [v], ids) == Some(v)
  {
    if |votes| > 0 {
      assert (votes + [v])[1..] == votes[1..] + [v];
      ExistingVoteAppended(votes[1..], ids, v);
    }
  }

  /** Clicking twice undoes the first click: a signed-in user who had not
      voted casts a vote, and the second click deletes exactly that vote and
      restores the count, provided the fresh vote id was not in use. */
  lemma {:induction false} ClickTwiceRestores(memeId: string, s: Store, user: User, freshId: string, now: int, freshId2: string, now2: int)
    requires s.upvotes >= 0
    requires Acting(user).Some? && !HasVoted(s.votes, user)
    requires forall k :: 0 <= k < |s.votes| ==> s.votes[k].id != freshId
    ensures var tx1 := Click(memeId, s.upvotes, s.votes, user, false, freshId, now);
      var s1 := Apply(s, tx1);
      var tx2 := Click(memeId, s1.upvotes, s1.votes, user, false, freshId2, now2);
      && tx1.Cast? && HasVoted(s1.votes, user) && tx2.Unvote?
      && Apply(s1, tx2) == s
  {
    var ids := Identifiers(user);
    var v := Vote(freshId, memeId, Acting(user).value, now);
    ExistingVoteAppended(s.votes, ids, v);
    DeleteAppended(s.votes, v);
  }

  /** Deleting a just-appended vote whose id is fresh gives the old list. */
  lemma DeleteAppended(votes: seq<Vote>, v: Vote)
    requires forall k :: 0 <= k < |votes| ==> votes[k].id != v.id
    ensures DeleteVote(votes + [v], v.id) == votes
  {
    WithoutAppended(votes, v);
  }

  lemma {:induction false} WithoutAppended(votes: seq<Vote>, v: Vote)
    requires forall k :: 0 <= k < |votes| ==> votes[k].id != v.id
    ensures Without(votes + [v], v.id) == votes
  {
    if |votes| == 0 {
      assert [v][1..] == [];
    } else {
      assert (votes + [v])[1..] == votes[1..] + [v];
      WithoutAppended(votes[1..], v);
      assert [votes[0]] + votes[1..] == votes;
    }
  }

}

/**
  The debate-session commands of Main.py over one guild and its channel.
  Every call into the chat platform becomes an update of a `World` object:
  which members hold each of the bot's roles, the channel's permission
  overwrites, the pending scrum-debate record (`scrum_debates[guild]`) and the
  pending vote (`active_votes[guild]`).
 */
module Session {
  import opened Wrappers
  import Tally

  type MemberId = nat
  type MessageId = nat

  /** The roles the bot creates and finds by name. */
  datatype RoleName = StarredSpeaker | Refuter | SideA | SideB

  /** Who a channel permission overwrite is for: `@everyone`, one of the bot's roles, or the guild's administrator role. */
  datatype Subject = Everyone | RoleSubject(role: RoleName) | AdminRole

  /**
    A permission overwrite; None leaves the permission to the role's defaults.
    Each write replaces the whole overwrite with only the permissions it names.
   */
  datatype Overwrite = Overwrite(send: Option<bool>, view: Option<bool>)

  datatype Side = A | B

  /** `scrum_debates[guild]` (Main.py:528-534, 610-611): `currentSide` is None until the first `startscrum`. */
  datatype ScrumRecord = ScrumRecord(setupMessage: MessageId, sideARole: RoleName, sideBRole: RoleName,
                                     active: bool, currentSide: Option<Side>)

  /** `active_votes[guild]`: a rebuttal vote (Main.py:471-476) or a scrum vote (Main.py:723-729). */
  datatype Vote =
    | RefuteVote(message: MessageId, refuter1: MemberId, refuter2: MemberId)
    | ScrumVote(message: MessageId, sideARole: RoleName, sideBRole: RoleName)

  /** The error messages a command reports instead of acting. */
  datatype Failure =
    | MissingBotPermissions
    | NoStarredRole
    | NoRefuterRole
    | NotExactlyTwoRefuters
    | NoScrumSetUp
    | NoActiveScrum
    | NoActiveVote
    | VoteMessageNotFound

  datatype Outcome = Done | Failed(why: Failure)

  /** Who won a vote: one of the two refuters, or one of the two sides. */
  datatype Credited = WinnerMember(member: MemberId) | WinnerSide(side: Side)

  datatype VoteResult = VoteResult(votesA: int, votesB: int, winner: Option<Credited>)

  /** `set_permissions(subject, send_messages=b)`. */
  function SendOnly(b: bool): Overwrite { Overwrite(Some(b), None) }

  /** `set_permissions(subject, send_messages=b, view_channel=True)`. */
  function SendAndView(b: bool): Overwrite { Overwrite(Some(b), Some(true)) }

  /** The administrator-role write that the commands make only when such a role exists. */
  function WithAdmin(ow: map<Subject, Overwrite>, adminExists: bool, o: Overwrite): map<Subject, Overwrite>
  {
    if adminExists then ow[AdminRole := o] else ow
  }

  /** The role table after finding role `r` by name and creating it, with no holders, when it is missing. */
  function Created(holders: map<RoleName, set<MemberId>>, r: RoleName): (h: map<RoleName, set<MemberId>>)
    ensures h.Keys == holders.Keys + {r}
    ensures forall x :: x in holders ==> h[x] == holders[x]
    ensures r !in holders ==> h[r] == {}
  {
    if r in holders then holders else holders[r := {}]
  }

  function Other(s: Side): Side
  {
    if s == A then B else A
  }

  /** The side overwrites give the floor to `speaking` and mute the other side (Main.py:598-607, 639-659). */
  predicate Speaks(ow: map<Subject, Overwrite>, d: ScrumRecord, speaking: Side)
  {
    && RoleSubject(d.sideARole) in ow && ow[RoleSubject(d.sideARole)] == SendAndView(speaking == A)
    && RoleSubject(d.sideBRole) in ow && ow[RoleSubject(d.sideBRole)] == SendAndView(speaking == B)
  }

  /** Every holder of every role is listed among `members`. */
  predicate HeldByMembers(h: map<RoleName, set<MemberId>>, members: seq<MemberId>)
  {
    forall r :: r in h ==> h[r] <= Elems(members)
  }

  /** Setting a role's holders to members keeps every holder a member. */
  lemma GrantKeepsHeld(h: map<RoleName, set<MemberId>>, members: seq<MemberId>, r: RoleName, s: set<MemberId>)
    requires HeldByMembers(h, members) && s <= Elems(members)
    ensures HeldByMembers(h[r := s], members)
  {
  }

  function Elems(s: seq<MemberId>): set<MemberId>
  {
    set m | m in s
  }

  ghost predicate Distinct(s: seq<MemberId>)
  {
    forall i, j :: 0 <= i < j < |s| ==> s[i] != s[j]
  }

  /** `[m for m in guild.members if role in m.roles]`: the holders of a role in guild member order. */
  function HoldersInOrder(members: seq<MemberId>, holders: set<MemberId>): (r: seq<MemberId>)
    ensures forall m :: m in r <==> m in members && m in holders
    ensures Distinct(members) ==> Distinct(r)
  {
    if members == [] then []
    else
      var rest := HoldersInOrder(members[1..], holders);
      assert Distinct(members) ==> members[0] !in rest && Distinct(members[1..]);
      (if members[0] in holders then [members[0]] else []) + rest
  }

  /** `r` is `s` with some entries left out and the rest in their order (matched greedily from the front). */
  ghost predicate Subsequence(r: seq<MemberId>, s: seq<MemberId>)
    decreases |s|
  {
    if r == [] then true
    else if s == [] then false
    else if r[0] == s[0] then Subsequence(r[1..], s[1..])
    else Subsequence(r, s[1..])
  }

  /** The listing keeps guild member order: it is a subsequence of `members`. */
  lemma {:induction false} HoldersInOrderKeepsOrder(members: seq<MemberId>, holders: set<MemberId>)
    ensures Subsequence(HoldersInOrder(members, holders), members)
    decreases |members|
  {
    if members != [] {
      var rest := HoldersInOrder(members[1..], holders);
      HoldersInOrderKeepsOrder(members[1..], holders);
      if members[0] in holders {
        assert HoldersInOrder(members, holders) == [members[0]] + rest;
      } else {
        assert HoldersInOrder(members, holders) == rest;
        assert rest != [] ==> rest[0] in holders && rest[0] != members[0];
      }
    }
  }

  /** A list without repeats has as many entries as it lists members. */
  lemma {:induction false} DistinctCard(s: seq<MemberId>)
    requires Distinct(s)
    ensures |Elems(s)| == |s|
  {
    if s != [] {
      var rest := s[1..];
      assert Distinct(rest);
      DistinctCard(rest);
      assert s[0] !in rest;
      assert Elems(s) == Elems(rest) + {s[0]};
    }
  }

  /**
    When every holder is a guild member, the ordered listing names each holder
    once; in particular two holders are listed as two different members.
   */
  lemma HoldersInOrderAll(members: seq<MemberId>, holders: set<MemberId>)
    requires Distinct(members) && holders <= Elems(members)
    ensures Elems(HoldersInOrder(members, holders)) == holders
    ensures |HoldersInOrder(members, holders)| == |holders|
    ensures |holders| == 2 ==>
      var c := HoldersInOrder(members, holders);
      c[0] != c[1] && holders == {c[0], c[1]}
  {
    var c := HoldersInOrder(members, holders);
    DistinctCard(c);
    assert Elems(c) == holders;
    if |holders| == 2 {
      forall x | x in holders ensures x == c[0] || x == c[1] {
        assert x in c;
      }
    }
  }

  /** One guild with its channel, as the bot's commands see and change it. */
  class World {
    /** `guild.members`, in the order the guild lists them. */
    const members: seq<MemberId>
    /** For each role that exists, the members holding it. */
    var holders: map<RoleName, set<MemberId>>
    /** The channel's permission overwrites; a subject without one is absent. */
    var overwrites: map<Subject, Overwrite>
    /** `scrum_debates[guild]`, None while the guild has no entry. */
    var scrum: Option<ScrumRecord>
    /** `active_votes[guild]`, None while the guild has no entry. */
    var vote: Option<Vote>

    /**
      Only guild members hold roles; a scrum record names the Side A and Side B
      roles, which exist; while the scrum is active one side speaks and the two
      side overwrites say which.
     */
    ghost predicate Valid()
      reads this
    {
      && Distinct(members)
      && HeldByMembers(holders, members)
      && (scrum.Some? ==>
            && scrum.value.sideARole == SideA && scrum.value.sideBRole == SideB
            && SideA in holders && SideB in holders)
      && (scrum.Some? && scrum.value.active ==>
            && scrum.value.currentSide.Some?
            && Speaks(overwrites, scrum.value, scrum.value.currentSide.value))
    }

    /** The guild as the bot finds it when the process starts: both dictionaries are empty. */
    constructor (members: seq<MemberId>, holders: map<RoleName, set<MemberId>>, overwrites: map<Subject, Overwrite>)
      requires Distinct(members)
      requires HeldByMembers(holders, members)
      ensures Valid()
      ensures this.members == members && this.holders == holders && this.overwrites == overwrites
      ensures scrum == None && vote == None
    {
      this.members := members;
      this.holders := holders;
      this.overwrites := overwrites;
      scrum := None;
      vote := None;
    }

    /** Takes role `r` from each member of `who` that holds it, one at a time. */
    method RemoveRoleFromEach(r: RoleName, who: seq<MemberId>)
      requires r in holders
      modifies this`holders
      ensures holders == old(holders)[r := old(holders)[r] - Elems(who)]
      ensures old(holders)[r] <= Elems(who) ==> holders == old(holders)[r := {}]
    {
      assert Elems(who[..0]) == {};
      assert old(holders)[r] - {} == old(holders)[r];
      assert old(holders)[r := old(holders)[r] - {}] == old(holders);
      for i := 0 to |who|
        invariant holders == old(holders)[r := old(holders)[r] - Elems(who[..i])]
      {
        var gone := old(holders)[r] - Elems(who[..i + 1]);
        assert Elems(who[..i + 1]) == Elems(who[..i]) + {who[i]};
        if who[i] in holders[r] {
          assert holders[r] - {who[i]} == gone;
          holders := holders[r := holders[r] - {who[i]}];
        } else {
          assert holders[r] == gone;
        }
        assert holders == old(holders)[r := gone];
      }
      assert who[..|who|] == who;
      if old(holders)[r] <= Elems(who) {
        assert old(holders)[r] - Elems(who) == {};
      }
    }

    /** `!star member` (Main.py:52-110): `member` becomes the only Starred Speaker and the channel is muted for everyone else but administrators. */
    method Star(member: MemberId, adminExists: bool, botCanManage: bool) returns (o: Outcome)
      requires Valid() && member in members
      modifies this`holders, this`overwrites
      ensures Valid()
      ensures o == if botCanManage then Done else Failed(MissingBotPermissions)
      ensures !botCanManage ==> holders == old(holders) && overwrites == old(overwrites)
      ensures botCanManage ==> holders == old(holders)[StarredSpeaker := {member}]
      ensures botCanManage ==>
        overwrites == WithAdmin(old(overwrites)[Everyone := SendOnly(false)][RoleSubject(StarredSpeaker) := SendOnly(true)],
                                adminExists, SendOnly(true))
    {
      if !botCanManage {
        return Failed(MissingBotPermissions);
      }
      holders := Created(holders, StarredSpeaker);
      assert holders[StarredSpeaker] <= Elems(members);
      RemoveRoleFromEach(StarredSpeaker, members);
      assert holders == old(holders)[StarredSpeaker := {}];
      assert holders[StarredSpeaker] + {member} == {member};
      holders := holders[StarredSpeaker := holders[StarredSpeaker] + {member}];
      overwrites := overwrites[Everyone := SendOnly(false)];
      overwrites := overwrites[RoleSubject(StarredSpeaker) := SendOnly(true)];
      if adminExists {
        overwrites := overwrites[AdminRole := SendOnly(true)];
      }
      o := Done;
    }

    /** `!unstar` (Main.py:112-146): nobody keeps the Starred Speaker role, everyone may speak and the role's overwrite is gone. */
    method Unstar() returns (o: Outcome)
      requires Valid()
      modifies this`holders, this`overwrites
      ensures Valid()
      ensures o == if StarredSpeaker in old(holders) then Done else Failed(NoStarredRole)
      ensures o.Failed? ==> holders == old(holders) && overwrites == old(overwrites)
      ensures o == Done ==> holders == old(holders)[StarredSpeaker := {}]
      ensures o == Done ==> overwrites == old(overwrites)[Everyone := SendOnly(true)] - {RoleSubject(StarredSpeaker)}
    {
      if StarredSpeaker !in holders {
        return Failed(NoStarredRole);
      }
      assert holders[StarredSpeaker] <= Elems(members);
      RemoveRoleFromEach(StarredSpeaker, members);
      overwrites := overwrites[Everyone := SendOnly(true)];
      overwrites := overwrites - {RoleSubject(StarredSpeaker)};
      o := Done;
    }

    /** `!intermission` (Main.py:289-323): everyone is muted except the administrator role; no session is checked or changed. */
    method Intermission(adminExists: bool)
      requires Valid()
      modifies this`overwrites
      ensures Valid()
      ensures overwrites == WithAdmin(old(overwrites)[Everyone := SendAndView(false)], adminExists, SendAndView(true))
    {
      overwrites := overwrites[Everyone := SendAndView(false)];
      if adminExists {
        overwrites := overwrites[AdminRole := SendAndView(true)];
      }
    }

    /** `!resume` (Main.py:325-351): everyone may speak again; the administrator overwrite stays. */
    method Resume()
      requires Valid()
      modifies this`overwrites
      ensures Valid()
      ensures overwrites == old(overwrites)[Everyone := SendAndView(true)]
    {
      overwrites := overwrites[Everyone := SendAndView(true)];
    }

    /** `!refute user1 user2` (Main.py:353-416): exactly the two users hold Refuter and only they and administrators may speak. */
    method Refute(user1: MemberId, user2: MemberId, adminExists: bool)
      requires Valid() && user1 in members && user2 in members
      modifies this`holders, this`overwrites
      ensures Valid()
      ensures holders == old(holders)[Refuter := {user1, user2}]
      ensures overwrites == WithAdmin(old(overwrites)[Everyone := SendAndView(false)][RoleSubject(Refuter) := SendAndView(true)],
                                      adminExists, SendAndView(true))
    {
      holders := Created(holders, Refuter);
      assert holders[Refuter] <= Elems(members);
      RemoveRoleFromEach(Refuter, members);
      holders := holders[Refuter := holders[Refuter] + {user1}];
      holders := holders[Refuter := holders[Refuter] + {user2}];
      assert holders[Refuter] == {user1, user2};
      GrantKeepsHeld(old(holders), members, Refuter, {user1, user2});
      overwrites := overwrites[Everyone := SendAndView(false)];
      overwrites := overwrites[RoleSubject(Refuter) := SendAndView(true)];
      if adminExists {
        overwrites := overwrites[AdminRole := SendAndView(true)];
      }
    }

    /**
      `!endrefute` (Main.py:418-481): with exactly two Refuters, both lose the
      role, the channel reopens and a vote between them, in guild member order,
      replaces any pending vote; otherwise nothing changes.
     */
    method EndRefute(voteMessage: MessageId) returns (o: Outcome)
      requires Valid()
      modifies this`holders, this`overwrites, this`vote
      ensures Valid()
      ensures Refuter !in old(holders) ==> o == Failed(NoRefuterRole)
      ensures Refuter in old(holders) ==>
        o == if |old(holders)[Refuter]| == 2 then Done else Failed(NotExactlyTwoRefuters)
      ensures o.Failed? ==> holders == old(holders) && overwrites == old(overwrites) && vote == old(vote)
      ensures o == Done ==> holders == old(holders)[Refuter := {}]
      ensures o == Done ==> overwrites == old(overwrites)[Everyone := SendAndView(true)] - {RoleSubject(Refuter)}
      ensures o == Done ==>
        var inOrder := HoldersInOrder(members, old(holders)[Refuter]);
        && |inOrder| == 2
        && vote == Some(RefuteVote(voteMessage, inOrder[0], inOrder[1]))
        && inOrder[0] != inOrder[1]
        && old(holders)[Refuter] == {inOrder[0], inOrder[1]}
    {
      if Refuter !in holders {
        return Failed(NoRefuterRole);
      }
      var current := HoldersInOrder(members, holders[Refuter]);
      HoldersInOrderAll(members, holders[Refuter]);
      if |current| != 2 {
        return Failed(NotExactlyTwoRefuters);
      }
      RemoveRoleFromEach(Refuter, current);
      overwrites := overwrites[Everyone := SendAndView(true)];
      overwrites := overwrites - {RoleSubject(Refuter)};
      vote := Some(RefuteVote(voteMessage, current[0], current[1]));
      o := Done;
    }

    /**
      `!scrumdebate` (Main.py:483-537): the two side roles exist, keeping their
      current holders, and a fresh, inactive record for the team-selection
      message replaces any earlier one.
     */
    method ScrumDebate(setupMessage: MessageId)
      requires Valid()
      modifies this`holders, this`scrum
      ensures Valid()
      ensures holders == Created(Created(old(holders), SideA), SideB)
      ensures scrum == Some(ScrumRecord(setupMessage, SideA, SideB, false, None))
    {
      holders := Created(holders, SideA);
      holders := Created(holders, SideB);
      scrum := Some(ScrumRecord(setupMessage, SideA, SideB, false, None));
    }

    /** Whether a reaction event concerns the team-selection message (Main.py:549, 572); the record's `active` flag is not consulted. */
    predicate OnSetupMessage(message: MessageId)
      reads this
    {
      scrum.Some? && scrum.value.setupMessage == message
    }

    /**
      `on_raw_reaction_add` (Main.py:539-563): on the team-selection message,
      blue puts the member on Side A and off Side B, red the reverse; the bot's
      own reactions, non-members, other messages and other emojis change nothing.
     */
    method ReactionAdded(user: MemberId, message: MessageId, emoji: string, botUser: MemberId)
      requires Valid()
      modifies this`holders
      ensures Valid()
      ensures user == botUser || !OnSetupMessage(message) || user !in members
              || (emoji != Tally.BlueCircle && emoji != Tally.RedCircle)
              ==> holders == old(holders)
      ensures user != botUser && OnSetupMessage(message) && user in members && emoji == Tally.BlueCircle ==>
        holders == old(holders)[SideA := old(holders)[SideA] + {user}][SideB := old(holders)[SideB] - {user}]
      ensures user != botUser && OnSetupMessage(message) && user in members && emoji == Tally.RedCircle ==>
        holders == old(holders)[SideB := old(holders)[SideB] + {user}][SideA := old(holders)[SideA] - {user}]
    {
      if user == botUser || !OnSetupMessage(message) || user !in members {
        return;
      }
      var d := scrum.value;
      if emoji == Tally.BlueCircle {
        holders := holders[d.sideARole := holders[d.sideARole] + {user}];
        holders := holders[d.sideBRole := holders[d.sideBRole] - {user}];
      } else if emoji == Tally.RedCircle {
        holders := holders[d.sideBRole := holders[d.sideBRole] + {user}];
        holders := holders[d.sideARole := holders[d.sideARole] - {user}];
      }
    }

    /**
      `on_raw_reaction_remove` (Main.py:565-582): on the team-selection message,
      withdrawing blue takes Side A away and withdrawing red takes Side B away;
      this handler does not check for the bot's own user.
     */
    method ReactionRemoved(user: MemberId, message: MessageId, emoji: string)
      requires Valid()
      modifies this`holders
      ensures Valid()
      ensures !OnSetupMessage(message) || user !in members
              || (emoji != Tally.BlueCircle && emoji != Tally.RedCircle)
              ==> holders == old(holders)
      ensures OnSetupMessage(message) && user in members && emoji == Tally.BlueCircle ==>
        holders == old(holders)[SideA := old(holders)[SideA] - {user}]
      ensures OnSetupMessage(message) && user in members && emoji == Tally.RedCircle ==>
        holders == old(holders)[SideB := old(holders)[SideB] - {user}]
    {
      if !OnSetupMessage(message) || user !in members {
        return;
      }
      var d := scrum.value;
      if emoji == Tally.BlueCircle {
        holders := holders[d.sideARole := holders[d.sideARole] - {user}];
      } else if emoji == Tally.RedCircle {
        holders := holders[d.sideBRole := holders[d.sideBRole] - {user}];
      }
    }

    /** `!startscrum` (Main.py:584-622): with a record set up, Side A speaks, Side B is muted and the debate is active. */
    method StartScrum() returns (o: Outcome)
      requires Valid()
      modifies this`overwrites, this`scrum
      ensures Valid()
      ensures o == if old(scrum).Some? then Done else Failed(NoScrumSetUp)
      ensures o.Failed? ==> overwrites == old(overwrites) && scrum == old(scrum)
      ensures o == Done ==>
        && overwrites == old(overwrites)[RoleSubject(SideA) := SendAndView(true)][RoleSubject(SideB) := SendAndView(false)]
        && scrum == Some(old(scrum).value.(active := true, currentSide := Some(A)))
    {
      if scrum.None? {
        return Failed(NoScrumSetUp);
      }
      var d := scrum.value;
      overwrites := overwrites[RoleSubject(d.sideARole) := SendAndView(true)];
      overwrites := overwrites[RoleSubject(d.sideBRole) := SendAndView(false)];
      scrum := Some(d.(active := true, currentSide := Some(A)));
      o := Done;
    }

    /** Whether a scrum debate is under way (Main.py:630, 680). */
    predicate ScrumActive()
      reads this
    {
      scrum.Some? && scrum.value.active
    }

    /** `!swap` (Main.py:624-672): in an active debate the other side gets the floor and the speaking side is muted. */
    method Swap() returns (o: Outcome)
      requires Valid()
      modifies this`overwrites, this`scrum
      ensures Valid()
      ensures o == if old(ScrumActive()) then Done else Failed(NoActiveScrum)
      ensures o.Failed? ==> overwrites == old(overwrites) && scrum == old(scrum)
      ensures o == Done ==>
        var side := Other(old(scrum).value.currentSide.value);
        && overwrites == old(overwrites)[RoleSubject(SideA) := SendAndView(side == A)][RoleSubject(SideB) := SendAndView(side == B)]
        && scrum == Some(old(scrum).value.(currentSide := Some(side)))
    {
      if !ScrumActive() {
        return Failed(NoActiveScrum);
      }
      var d := scrum.value;
      if d.currentSide == Some(A) {
        overwrites := overwrites[RoleSubject(d.sideARole) := SendAndView(false)];
        overwrites := overwrites[RoleSubject(d.sideBRole) := SendAndView(true)];
        scrum := Some(d.(currentSide := Some(B)));
      } else {
        overwrites := overwrites[RoleSubject(d.sideBRole) := SendAndView(false)];
        overwrites := overwrites[RoleSubject(d.sideARole) := SendAndView(true)];
        scrum := Some(d.(currentSide := Some(A)));
      }
      o := Done;
    }

    /**
      `!endscrum` (Main.py:674-735): in an active debate both side overwrites
      go, every holder of either side loses it, a scrum vote replaces any
      pending vote and the record stays with `active` cleared.
     */
    method EndScrum(voteMessage: MessageId) returns (o: Outcome)
      requires Valid()
      modifies this`holders, this`overwrites, this`scrum, this`vote
      ensures Valid()
      ensures o == if old(ScrumActive()) then Done else Failed(NoActiveScrum)
      ensures o.Failed? ==> holders == old(holders) && overwrites == old(overwrites) && scrum == old(scrum) && vote == old(vote)
      ensures o == Done ==>
        && overwrites == old(overwrites) - {RoleSubject(SideA), RoleSubject(SideB)}
        && holders == old(holders)[SideA := {}][SideB := {}]
        && vote == Some(ScrumVote(voteMessage, SideA, SideB))
        && scrum == Some(old(scrum).value.(active := false))
    {
      if !ScrumActive() {
        return Failed(NoActiveScrum);
      }
      var d := scrum.value;
      overwrites := overwrites - {RoleSubject(d.sideARole)};
      overwrites := overwrites - {RoleSubject(d.sideBRole)};
      var sideAMembers := HoldersInOrder(members, holders[d.sideARole]);
      var sideBMembers := HoldersInOrder(members, holders[d.sideBRole]);
      RemoveRoleFromEach(d.sideARole, sideAMembers);
      assert old(holders)[SideA] - Elems(sideAMembers) == {};
      assert holders == old(holders)[SideA := {}];
      RemoveRoleFromEach(d.sideBRole, sideBMembers);
      assert old(holders)[SideB] - Elems(sideBMembers) == {};
      assert holders == old(holders)[SideA := {}][SideB := {}];
      vote := Some(ScrumVote(voteMessage, d.sideARole, d.sideBRole));
      scrum := Some(d.(active := false));
      o := Done;
    }

    /**
      `!endvote` (Main.py:737-841). `fetched` is the reaction list of the vote
      message, None when it cannot be fetched. The pending vote is consumed
      only when a result is produced.
     */
    method EndVote(fetched: Option<seq<Tally.Reaction>>) returns (r: Result<VoteResult, Failure>)
      requires Valid()
      modifies this`vote
      ensures Valid()
      ensures old(vote).None? ==> r == Err(NoActiveVote)
      ensures old(vote).Some? && fetched.None? ==> r == Err(VoteMessageNotFound)
      ensures r.Err? ==> vote == old(vote)
      ensures old(vote).Some? && fetched.Some? ==>
        && vote == None
        && r.Ok?
        && r.value.votesA == Tally.VotesFor(fetched.value, Tally.EmojiFor(KindOf(old(vote).value), Tally.OptionA))
        && r.value.votesB == Tally.VotesFor(fetched.value, Tally.EmojiFor(KindOf(old(vote).value), Tally.OptionB))
        && r.value.winner == Credit(old(vote).value, Tally.Winner(r.value.votesA, r.value.votesB))
    {
      if vote.None? {
        return Err(NoActiveVote);
      }
      if fetched.None? {
        return Err(VoteMessageNotFound);
      }
      var v := vote.value;
      var c := Tally.CountVotes(KindOf(v), fetched.value);
      r := Ok(VoteResult(c.votesA, c.votesB, Credit(v, c.winner)));
      vote := None;
    }
  }

  /** A vote stored with type 'scrum' counts blue and red; any other counts the keycaps. */
  function KindOf(v: Vote): (k: Tally.VoteKind)
    ensures k == Tally.ScrumKind <==> v.ScrumVote?
    ensures k == Tally.RefuteKind <==> v.RefuteVote?
  {
    if v.ScrumVote? then Tally.ScrumKind else Tally.RefuteKind
  }

  /** The refuter or side that an option of the vote stands for (Main.py:773-781, 804-812). */
  function Credit(v: Vote, choice: Option<Tally.Choice>): (w: Option<Credited>)
    ensures choice.None? <==> w.None?
    ensures v.RefuteVote? && choice == Some(Tally.OptionA) ==> w == Some(WinnerMember(v.refuter1))
    ensures v.RefuteVote? && choice == Some(Tally.OptionB) ==> w == Some(WinnerMember(v.refuter2))
    ensures v.ScrumVote? && choice == Some(Tally.OptionA) ==> w == Some(WinnerSide(A))
    ensures v.ScrumVote? && choice == Some(Tally.OptionB) ==> w == Some(WinnerSide(B))
  {
    if choice.None? then None
    else if choice.value == Tally.OptionA then
      if v.RefuteVote? then Some(WinnerMember(v.refuter1)) else Some(WinnerSide(A))
    else
      if v.RefuteVote? then Some(WinnerMember(v.refuter2)) else Some(WinnerSide(B))
  }

  // ---- sequences of commands, as the bot's users run them ----

  /** A second `!endvote` finds no vote: the first one consumed it. */
  method EndVoteTwice(w: World, reactions: seq<Tally.Reaction>) returns (first: Result<VoteResult, Failure>, second: Result<VoteResult, Failure>)
    requires w.Valid() && w.vote.Some?
    modifies w
    ensures first.Ok? && second == Err(NoActiveVote) && w.vote == None
  {
    first := w.EndVote(Some(reactions));
    second := w.EndVote(Some(reactions));
  }

  /** Two `!swap`s in an active debate restore the speaking side and both side overwrites. */
  method SwapTwice(w: World)
    requires w.Valid() && w.ScrumActive()
    modifies w
    ensures w.scrum == old(w.scrum) && w.overwrites == old(w.overwrites) && w.holders == old(w.holders)
  {
    ghost var d := w.scrum.value;
    var o1 := w.Swap();
    var o2 := w.Swap();
    assert Other(Other(d.currentSide.value)) == d.currentSide.value;
  }

  /** `!star` then `!unstar`: nobody holds Starred Speaker, everyone may speak and no overwrite for the role is left. */
  method StarThenUnstar(w: World, member: MemberId, adminExists: bool)
    requires w.Valid() && member in w.members
    modifies w
    ensures StarredSpeaker in w.holders && w.holders[StarredSpeaker] == {}
    ensures Everyone in w.overwrites && w.overwrites[Everyone] == SendOnly(true)
    ensures RoleSubject(StarredSpeaker) !in w.overwrites
  {
    var o1 := w.Star(member, adminExists, true);
    var o2 := w.Unstar();
  }

  /** `!refute u1 u2` then `!endrefute` with two different users: the vote names both, in guild member order. */
  method RefuteThenEndRefute(w: World, user1: MemberId, user2: MemberId, voteMessage: MessageId)
    requires w.Valid() && user1 in w.members && user2 in w.members && user1 != user2
    modifies w
    ensures w.vote.Some? && w.vote.value.RefuteVote? && w.vote.value.message == voteMessage
    ensures {w.vote.value.refuter1, w.vote.value.refuter2} == {user1, user2}
    ensures Refuter in w.holders && w.holders[Refuter] == {}
  {
    w.Refute(user1, user2, false);
    assert |{user1, user2}| == 2;
    var o := w.EndRefute(voteMessage);
  }

  /** `!refute u u` is accepted, but leaves a single Refuter, so the following `!endrefute` fails and starts no vote. */
  method RefuteOneUserTwice(w: World, user: MemberId, voteMessage: MessageId) returns (o: Outcome)
    requires w.Valid() && user in w.members
    modifies w
    ensures o == Failed(NotExactlyTwoRefuters) && w.vote == old(w.vote)
    ensures Refuter in w.holders && w.holders[Refuter] == {user}
  {
    w.Refute(user, user, false);
    o := w.EndRefute(voteMessage);
  }

  /** Reacting blue, then red, then withdrawing red leaves a member on neither side. */
  method PickSidesThenWithdraw(w: World, user: MemberId, botUser: MemberId)
    requires w.Valid() && w.scrum.Some? && user in w.members && user != botUser
    modifies w
    ensures SideA in w.holders && SideB in w.holders
    ensures user !in w.holders[SideA] && user !in w.holders[SideB]
  {
    var message := w.scrum.value.setupMessage;
    w.ReactionAdded(user, message, Tally.BlueCircle, botUser);
    assert user in w.holders[SideA];
    w.ReactionAdded(user, message, Tally.RedCircle, botUser);
    assert user in w.holders[SideB] && user !in w.holders[SideA];
    w.ReactionRemoved(user, message, Tally.RedCircle);
  }

  /** Nothing keeps `!intermission` out of an active scrum debate: the debate stays active and one side keeps its send permission. */
  method IntermissionDuringScrum(w: World, adminExists: bool)
    requires w.Valid() && w.ScrumActive()
    modifies w
    ensures w.ScrumActive() && w.scrum == old(w.scrum)
    ensures Everyone in w.overwrites && w.overwrites[Everyone] == SendAndView(false)
    ensures RoleSubject(SideA) in w.overwrites && RoleSubject(SideB) in w.overwrites
    ensures w.overwrites[RoleSubject(SideA)] == SendAndView(true) || w.overwrites[RoleSubject(SideB)] == SendAndView(true)
  {
    w.Intermission(adminExists);
  }
}

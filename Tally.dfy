/**
  The reaction count of a closed vote (the counting loop and winner
  comparison of `end_vote`, Main.py:755-812). A vote has two options; each
  option is represented by one emoji that the bot seeded on the vote message,
  so an option's tally is the reaction count of its emoji minus the bot's own
  reaction.
 */
module Tally {
  import opened Wrappers

  /** A pending vote started by `endrefute` (stored without a type) or by `endscrum` (type 'scrum'). */
  datatype VoteKind = RefuteKind | ScrumKind

  /** The first (A) or second (B) option of a vote. */
  datatype Choice = OptionA | OptionB

  /** One entry of a message's reaction list: an emoji and how many users reacted with it. */
  datatype Reaction = Reaction(emoji: string, count: nat)

  /** The outcome of a vote: both tallies and the winning option, None on a tie. */
  datatype Count = Count(votesA: int, votesB: int, winner: Option<Choice>)

  const BlueCircle: string := "\U{1F535}"
  const RedCircle: string := "\U{1F534}"
  const KeycapOne: string := "1\U{FE0F}\U{20E3}"
  const KeycapTwo: string := "2\U{FE0F}\U{20E3}"

  /** The emoji that stands for `choice` in a vote of kind `kind`. */
  function EmojiFor(kind: VoteKind, choice: Choice): (e: string)
    ensures kind == ScrumKind && choice == OptionA ==> e == BlueCircle
    ensures kind == ScrumKind && choice == OptionB ==> e == RedCircle
    ensures kind == RefuteKind && choice == OptionA ==> e == KeycapOne
    ensures kind == RefuteKind && choice == OptionB ==> e == KeycapTwo
  {
    match (kind, choice)
    case (ScrumKind, OptionA) => BlueCircle
    case (ScrumKind, OptionB) => RedCircle
    case (RefuteKind, OptionA) => KeycapOne
    case (RefuteKind, OptionB) => KeycapTwo
  }

  /**
    The tally for emoji `e` after reading the reactions `rs` in order: each
    reaction with emoji `e` sets the tally to its count minus one, so the last
    such reaction decides; with none the tally stays 0.
   */
  function VotesFor(rs: seq<Reaction>, e: string): (v: int)
    ensures v >= -1
    ensures v != 0 ==> exists i :: 0 <= i < |rs| && rs[i].emoji == e && v == rs[i].count - 1
  {
    if rs == [] then 0
    else if rs[|rs| - 1].emoji == e then rs[|rs| - 1].count - 1
    else VotesFor(rs[..|rs| - 1], e)
  }

  /** Strictly more votes wins; equal tallies are a tie with no winner. */
  function Winner(votesA: int, votesB: int): (w: Option<Choice>)
    ensures w == Some(OptionA) <==> votesA > votesB
    ensures w == Some(OptionB) <==> votesB > votesA
    ensures w == None <==> votesA == votesB
  {
    if votesA > votesB then Some(OptionA)
    else if votesB > votesA then Some(OptionB)
    else None
  }

  /** The counting loop of Main.py:756-769 followed by the comparison of Main.py:773-781 / 804-812. */
  method CountVotes(kind: VoteKind, rs: seq<Reaction>) returns (c: Count)
    ensures c.votesA == VotesFor(rs, EmojiFor(kind, OptionA))
    ensures c.votesB == VotesFor(rs, EmojiFor(kind, OptionB))
    ensures c.winner == Winner(c.votesA, c.votesB)
  {
    var eA := EmojiFor(kind, OptionA);
    var eB := EmojiFor(kind, OptionB);
    var votesA, votesB := 0, 0;
    for i := 0 to |rs|
      invariant votesA == VotesFor(rs[..i], eA)
      invariant votesB == VotesFor(rs[..i], eB)
    {
      assert rs[..i + 1][..i] == rs[..i];
      if rs[i].emoji == eA {
        votesA := rs[i].count - 1;
      } else if rs[i].emoji == eB {
        votesB := rs[i].count - 1;
      }
    }
    assert rs[..|rs|] == rs;
    c := Count(votesA, votesB, Winner(votesA, votesB));
  }

  /** An emoji that appears in no reaction has tally 0. */
  lemma {:induction false} VotesForAbsent(rs: seq<Reaction>, e: string)
    requires forall i :: 0 <= i < |rs| ==> rs[i].emoji != e
    ensures VotesFor(rs, e) == 0
  {
    if rs != [] {
      VotesForAbsent(rs[..|rs| - 1], e);
    }
  }

  /** An emoji that appears in exactly one reaction, at index `k`, has tally `rs[k].count - 1`. */
  lemma {:induction false} VotesForUnique(rs: seq<Reaction>, e: string, k: nat)
    requires k < |rs| && rs[k].emoji == e
    requires forall i :: 0 <= i < |rs| && i != k ==> rs[i].emoji != e
    ensures VotesFor(rs, e) == rs[k].count - 1
  {
    if k < |rs| - 1 {
      VotesForUnique(rs[..|rs| - 1], e, k);
    }
  }

  /** Reactions with any other emoji do not change the tally of `e`, wherever they stand. */
  lemma {:induction false} VotesForIgnoresOthers(xs: seq<Reaction>, x: Reaction, ys: seq<Reaction>, e: string)
    requires x.emoji != e
    ensures VotesFor(xs + [x] + ys, e) == VotesFor(xs + ys, e)
  {
    if ys == [] {
      assert (xs + [x] + ys)[..|xs| + 1 - 1] == xs;
      assert xs + ys == xs;
    } else {
      var ys' := ys[..|ys| - 1];
      assert (xs + [x] + ys)[..|xs + [x] + ys| - 1] == xs + [x] + ys';
      assert (xs + ys)[..|xs + ys| - 1] == xs + ys';
      VotesForIgnoresOthers(xs, x, ys', e);
    }
  }
}

/**
  The forced-topic section of a channel description (`!topic` and
  `!cleartopic`, Main.py:236-287). The description may end in a section that
  starts with a fixed marker; setting a topic replaces that section (or appends
  one), clearing it keeps the text before the first marker.
 */
module Topic {
  import opened Wrappers

  /** The marker that opens the forced-topic section: U+3010, "FORCED TOPIC", U+3011. */
  const Marker: string := "\U{3010}FORCED TOPIC\U{3011}"

  /** The text that follows the description before the new topic when there is a description to keep. */
  const Separator: string := "\n\n"

  /** Whitespace as Python's `str.strip()` sees it, restricted to ASCII. */
  predicate IsSpace(c: char)
  {
    c == ' ' || c == '\t' || c == '\n' || c == '\r' || c == '\U{B}' || c == '\U{C}'
    || ('\U{1C}' <= c <= '\U{1F}')
  }

  predicate AllSpace(s: string)
  {
    forall i :: 0 <= i < |s| ==> IsSpace(s[i])
  }

  /** The marker occurs in `s` starting at index `i`. */
  predicate OccursAt(s: string, i: int)
  {
    0 <= i && i + |Marker| <= |s| && s[i..i + |Marker|] == Marker
  }

  /** Dropping the first character moves every occurrence one place to the front. */
  lemma ShiftOccurs(s: string, i: int)
    requires |s| > 0 && i >= 0
    ensures OccursAt(s[1..], i) == OccursAt(s, i + 1)
  {
    if 0 <= i && i + |Marker| <= |s| - 1 {
      assert s[1..][i..i + |Marker|] == s[i + 1..i + 1 + |Marker|];
    }
  }

  /** `Marker in s` (Main.py:246, 276). */
  predicate HasMarker(s: string)
    decreases |s|
  {
    |s| >= |Marker| && (s[..|Marker|] == Marker || HasMarker(s[1..]))
  }

  /** `s.split(Marker)[0]`: the text before the first marker, or all of `s` when there is none. */
  function BeforeMarker(s: string): (r: string)
    ensures |r| <= |s| && r == s[..|r|]
    ensures !HasMarker(s) ==> r == s
    decreases |s|
  {
    if |s| < |Marker| then s
    else if s[..|Marker|] == Marker then ""
    else [s[0]] + BeforeMarker(s[1..])
  }

  /**
    `BeforeMarker` splits at the FIRST marker: when `s` has a marker, one
    starts right after the result, and none starts earlier.
   */
  lemma {:induction false} BeforeMarkerFirst(s: string)
    ensures HasMarker(s) ==> OccursAt(s, |BeforeMarker(s)|)
    ensures forall i :: 0 <= i < |BeforeMarker(s)| ==> !OccursAt(s, i)
    decreases |s|
  {
    if |s| >= |Marker| && s[..|Marker|] != Marker {
      var rest := BeforeMarker(s[1..]);
      BeforeMarkerFirst(s[1..]);
      assert BeforeMarker(s) == [s[0]] + rest;
      ShiftOccurs(s, |rest|);
      forall i | 0 <= i < |rest| + 1 ensures !OccursAt(s, i) {
        if i == 0 {
          assert s[0..|Marker|] == s[..|Marker|];
        } else {
          ShiftOccurs(s, i - 1);
        }
      }
    } else if |s| >= |Marker| {
      assert s[0..|Marker|] == s[..|Marker|];
    }
  }

  /** Leading whitespace removed: the result is a suffix of `s` that is empty or starts with a non-space. */
  function StripLeft(s: string): (r: string)
    ensures |r| <= |s| && r == s[|s| - |r|..]
    ensures r == [] || !IsSpace(r[0])
    ensures forall i :: 0 <= i < |s| - |r| ==> IsSpace(s[i])
  {
    if |s| > 0 && IsSpace(s[0]) then StripLeft(s[1..]) else s
  }

  /** Trailing whitespace removed: the result is a prefix of `s` that is empty or ends in a non-space. */
  function StripRight(s: string): (r: string)
    ensures |r| <= |s| && r == s[..|r|]
    ensures r == [] || !IsSpace(r[|r| - 1])
    ensures forall i :: |r| <= i < |s| ==> IsSpace(s[i])
  {
    if |s| > 0 && IsSpace(s[|s| - 1]) then StripRight(s[..|s| - 1]) else s
  }

  /** Python's `s.strip()` over ASCII whitespace: the result neither starts nor ends with whitespace. */
  function Strip(s: string): (r: string)
    ensures r == [] || (!IsSpace(r[0]) && !IsSpace(r[|r| - 1]))
  {
    var l := StripLeft(s);
    var r := StripRight(l);
    assert r != [] ==> r[0] == l[0];
    r
  }

  /** What `!cleartopic` keeps, and what `!topic` keeps in front of a replaced section: the stripped text before the first marker. */
  function KeptText(s: string): string
  {
    Strip(BeforeMarker(s))
  }

  /** The forced-topic section that `!topic` writes. */
  function Section(topic: string): string
  {
    Marker + "\n" + topic
  }

  /**
    The new channel description written by `!topic` (Main.py:243-257); a
    missing description is the empty string. With a marker present only the
    stripped text before the first marker is kept; otherwise the whole
    description is kept as it is.
   */
  function SetTopic(current: string, topic: string): (r: string)
    ensures |r| >= |Section(topic)| && r[|r| - |Section(topic)|..] == Section(topic)
  {
    Compose(if HasMarker(current) then KeptText(current) else current, topic)
  }

  /** The description `!topic` writes around the text it keeps (Main.py:252, 257): the kept text, a blank line and the section, or the section alone. */
  function Compose(base: string, topic: string): string
  {
    if base != "" then base + Separator + Section(topic) else Section(topic)
  }

  /** The new description written by `!cleartopic` (Main.py:274-282), or None when there is no marker and nothing is edited. */
  function ClearTopic(current: string): (r: Option<string>)
    ensures r.None? <==> !HasMarker(current)
    ensures r.Some? ==> !HasMarker(r.value) && r.value == KeptText(current)
  {
    if HasMarker(current) then
      NoMarkerInStripped(current);
      Some(KeptText(current))
    else None
  }

  // ---- lemmas ----

  /** `HasMarker` is substring search: it holds exactly when the marker occurs at some index. */
  lemma {:induction false} HasMarkerIff(s: string)
    ensures HasMarker(s) <==> exists i :: OccursAt(s, i)
    decreases |s|
  {
    if |s| >= |Marker| {
      HasMarkerIff(s[1..]);
      if s[..|Marker|] == Marker {
        assert OccursAt(s, 0);
      } else {
        forall i | OccursAt(s, i) ensures HasMarker(s[1..]) {
          assert i != 0;
          ShiftOccurs(s, i - 1);
        }
        if HasMarker(s[1..]) {
          var i :| OccursAt(s[1..], i);
          ShiftOccurs(s, i);
        }
      }
    } else {
      assert forall i :: !OccursAt(s, i);
    }
  }

  lemma {:induction false} MarkerAt(s: string)
    requires |s| >= |Marker| && s[..|Marker|] == Marker
    ensures HasMarker(s) && BeforeMarker(s) == ""
  {
  }

  /** The text before the first marker contains no marker. */
  lemma {:induction false} NoMarkerBefore(s: string)
    ensures !HasMarker(BeforeMarker(s))
    decreases |s|
  {
    if |s| >= |Marker| && s[..|Marker|] != Marker {
      NoMarkerBefore(s[1..]);
      var r := [s[0]] + BeforeMarker(s[1..]);
      if |r| >= |Marker| {
        assert r[1..] == BeforeMarker(s[1..]);
        assert r[..|Marker|] == s[..|Marker|];
      }
    }
  }

  /** A string without a marker has none in any prefix. */
  lemma {:induction false} NoMarkerPrefix(s: string, n: nat)
    requires n <= |s| && !HasMarker(s)
    ensures !HasMarker(s[..n])
    decreases |s|
  {
    if n >= |Marker| {
      assert s[..n][..|Marker|] == s[..|Marker|];
      assert s[..n][1..] == s[1..][..n - 1];
      NoMarkerPrefix(s[1..], n - 1);
    }
  }

  /** A string without a marker has none in any suffix. */
  lemma {:induction false} NoMarkerSuffix(s: string, n: nat)
    requires n <= |s| && !HasMarker(s)
    ensures !HasMarker(s[n..])
    decreases n
  {
    if n > 0 {
      assert s[n..] == s[1..][n - 1..];
      NoMarkerSuffix(s[1..], n - 1);
    }
  }

  lemma {:induction false} NoMarkerInStripped(s: string)
    ensures !HasMarker(Strip(BeforeMarker(s)))
  {
    var b := BeforeMarker(s);
    NoMarkerBefore(s);
    var l := StripLeft(b);
    NoMarkerSuffix(b, |b| - |l|);
    NoMarkerPrefix(l, |StripRight(l)|);
  }

  /**
    Gluing a marker-free `x` to `y` with a character that is not part of the
    marker cannot create a marker across the join: the first marker of the
    whole is the first marker of `y`.
   */
  lemma {:induction false} JoinAt(x: string, c: char, y: string)
    requires !HasMarker(x) && c !in Marker
    ensures HasMarker(x + [c] + y) == HasMarker(y)
    ensures BeforeMarker(x + [c] + y) == x + [c] + BeforeMarker(y)
    decreases |x|
  {
    var s := x + [c] + y;
    var t := s[1..];
    if |s| >= |Marker| {
      NoMarkerAtJoin(x, c, y);
      assert s[0..|Marker|] == s[..|Marker|];
      assert HasMarker(s) == HasMarker(t);
      assert BeforeMarker(s) == [s[0]] + BeforeMarker(t);
    }
    if x == [] {
      assert t == y;
    } else {
      assert t == x[1..] + [c] + y;
      NoMarkerSuffix(x, 1);
      JoinAt(x[1..], c, y);
      assert [x[0]] + (x[1..] + [c] + BeforeMarker(y)) == x + [c] + BeforeMarker(y);
    }
  }

  /** No marker starts at the front of a marker-free `x` glued to the rest by a character outside the marker. */
  lemma NoMarkerAtJoin(x: string, c: char, y: string)
    requires !HasMarker(x) && c !in Marker
    ensures !OccursAt(x + [c] + y, 0)
  {
    var s := x + [c] + y;
    if |s| >= |Marker| {
      if |x| >= |Marker| {
        assert s[0..|Marker|] == x[..|Marker|];
      } else {
        assert s[0..|Marker|][|x|] == c && Marker[|x|] in Marker;
      }
    }
  }

  /** Whitespace appended at the end does not survive stripping. */
  lemma {:induction false} StripRightTrailing(x: string, w: string)
    requires AllSpace(w)
    ensures StripRight(x + w) == StripRight(x)
    decreases |w|
  {
    if w != [] {
      assert (x + w)[..|x + w| - 1] == x + w[..|w| - 1];
      StripRightTrailing(x, w[..|w| - 1]);
    } else {
      assert x + w == x;
    }
  }

  lemma {:induction false} StripTrailing(x: string, w: string)
    requires AllSpace(w)
    ensures Strip(x + w) == Strip(x)
    decreases |x|
  {
    if x == [] {
      assert x + w == w;
      assert StripLeft(w) == [];
    } else if IsSpace(x[0]) {
      assert (x + w)[1..] == x[1..] + w;
      StripTrailing(x[1..], w);
    } else {
      StripRightTrailing(x, w);
    }
  }

  lemma StripIdempotent(s: string)
    ensures Strip(Strip(s)) == Strip(s)
  {
    var r := Strip(s);
    if r != [] {
      assert r[0] == StripLeft(s)[0];
    }
  }

  /**
    `!cleartopic` after `!topic` keeps exactly the stripped text before the
    first marker of the original description (all of it, stripped, when it
    had no marker).
   */
  lemma ClearAfterSet(current: string, topic: string)
    ensures ClearTopic(SetTopic(current, topic)) == Some(KeptText(current))
  {
    var base := if HasMarker(current) then KeptText(current) else current;
    var tail := ['\n'] + Section(topic);
    MarkerAt(Section(topic));
    assert '\n' !in Marker;
    if base == "" {
      assert SetTopic(current, topic) == Section(topic);
      if !HasMarker(current) {
        assert BeforeMarker(current) == "";
      }
    } else {
      var s := base + Separator + Section(topic);
      assert s == base + ['\n'] + tail;
      assert tail == [] + ['\n'] + Section(topic);
      JoinAt([], '\n', Section(topic));
      if HasMarker(current) {
        NoMarkerInStripped(current);
      }
      JoinAt(base, '\n', tail);
      assert BeforeMarker(s) == base + Separator;
      StripTrailing(base, Separator);
      if HasMarker(current) {
        StripIdempotent(BeforeMarker(current));
      }
    }
  }

  /** Setting a topic twice is setting the second topic on the stripped text before the original's first marker: the first topic leaves no trace. */
  lemma SetTwice(current: string, first: string, second: string)
    ensures SetTopic(SetTopic(current, first), second) == SetTopic(KeptText(current), second)
  {
    var s1 := SetTopic(current, first);
    ClearAfterSet(current, first);
    assert HasMarker(s1) && KeptText(s1) == KeptText(current);
    NoMarkerInStripped(current);
    var kept := KeptText(current);
    assert !HasMarker(kept);
    assert SetTopic(s1, second) == if kept != "" then kept + Separator + Section(second) else Section(second);
  }

  /**
    What `!topic` keeps of the description before the new section: a
    description without a marker is kept as it is, and one with a marker is
    handled as if its stripped text before the first marker were the whole
    description.
   */
  lemma SetTopicKeeps(current: string, topic: string)
    ensures !HasMarker(current) ==> SetTopic(current, topic)[..|current|] == current
    ensures HasMarker(current) ==> SetTopic(current, topic) == SetTopic(KeptText(current), topic)
  {
    if HasMarker(current) {
      SetTopicReplaces(current, topic);
    } else {
      SetTopicAppends(current, topic);
    }
  }

  lemma SetTopicAppends(current: string, topic: string)
    requires !HasMarker(current)
    ensures SetTopic(current, topic)[..|current|] == current
  {
    ComposeKeeps(current, topic);
  }

  /** The kept text is the front of the composed description. */
  lemma ComposeKeeps(base: string, topic: string)
    ensures Compose(base, topic)[..|base|] == base
  {
    if base != "" {
      var front := base + Separator;
      assert Compose(base, topic) == front + Section(topic);
      assert Compose(base, topic)[..|front|] == front;
      assert front[..|base|] == base;
    }
  }

  lemma SetTopicReplaces(current: string, topic: string)
    requires HasMarker(current)
    ensures SetTopic(current, topic) == SetTopic(KeptText(current), topic)
  {
    NoMarkerInStripped(current);
  }
}

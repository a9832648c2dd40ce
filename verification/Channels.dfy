/** The channel a room's messages are published on, and the room a subscriber reads
    back from the channel's name. */
module Channels {
  import opened Sequences

  type RoomId = string

  const PREFIX := "room:"
  const SUFFIX := ":messages"

  function ChannelOf(r: RoomId): string {
    PREFIX + r + SUFFIX
  }

  /** JavaScript's `s.replace(pattern, '')`: the first occurrence goes. */
  function RemoveFirst(s: string, pattern: string): string {
    if |s| < |pattern| then s
    else if s[..|pattern|] == pattern then s[|pattern|..]
    else if s == "" then s
    else [s[0]] + RemoveFirst(s[1..], pattern)
  }

  function RoomOf(channel: string): RoomId {
    RemoveFirst(RemoveFirst(channel, PREFIX), SUFFIX)
  }

  predicate StartsWith(s: string, prefix: string) {
    |prefix| <= |s| && s[..|prefix|] == prefix
  }

  /** Nothing but repetitions of the suffix. */
  predicate OnlySuffixes(r: RoomId) {
    r == "" || (StartsWith(r, SUFFIX) && OnlySuffixes(r[|SUFFIX|..]))
  }

  /** From the first suffix in `r` on, nothing but repetitions of it. */
  predicate Clean(r: RoomId) {
    if r == "" then true
    else if StartsWith(r, SUFFIX) then OnlySuffixes(r)
    else Clean(r[1..])
  }

  /** The suffix has a colon at its start and nowhere else, so what lies across the
      end of `t` is no suffix. */
  lemma NoOverlap(t: string)
    requires 0 < |t| < |SUFFIX|
    ensures !StartsWith(t + SUFFIX, SUFFIX)
  {
    assert (t + SUFFIX)[..|SUFFIX|][|t|] == ':' && SUFFIX[|t|] != ':';
  }

  lemma SuffixFirst(t: string)
    requires |t| >= |SUFFIX|
    ensures StartsWith(t + SUFFIX, SUFFIX) <==> StartsWith(t, SUFFIX)
  {
    assert (t + SUFFIX)[..|SUFFIX|] == t[..|SUFFIX|];
  }

  lemma {:induction false} Commutes(t: string)
    ensures t + SUFFIX == SUFFIX + t <==> OnlySuffixes(t)
    decreases |t|
  {
    assert StartsWith(SUFFIX + t, SUFFIX);
    if t == "" {
      assert t + SUFFIX == SUFFIX == SUFFIX + t;
    } else if |t| < |SUFFIX| {
      NoOverlap(t);
    } else {
      SuffixFirst(t);
      if StartsWith(t, SUFFIX) {
        var rest := t[|SUFFIX|..];
        Commutes(rest);
        assert t == SUFFIX + rest;
        SamePrefix(SUFFIX, rest + SUFFIX, SUFFIX + rest);
        assert t + SUFFIX == SUFFIX + (rest + SUFFIX) && SUFFIX + t == SUFFIX + (SUFFIX + rest);
      }
    }
  }

  lemma {:induction false} SuffixRemoved(r: RoomId)
    ensures RemoveFirst(r + SUFFIX, SUFFIX) == r <==> Clean(r)
    decreases |r|
  {
    var s := r + SUFFIX;
    if r == "" {
      assert s == SUFFIX && s[..|SUFFIX|] == SUFFIX && s[|SUFFIX|..] == "";
    } else if StartsWith(r, SUFFIX) {
      SuffixFirst(r);
      var rest := r[|SUFFIX|..];
      assert r == SUFFIX + rest && s[|SUFFIX|..] == rest + SUFFIX;
      Commutes(rest);
    } else {
      if |r| < |SUFFIX| { NoOverlap(r); } else { SuffixFirst(r); }
      assert s[1..] == r[1..] + SUFFIX && s[0] == r[0];
      SuffixRemoved(r[1..]);
      assert r == [r[0]] + r[1..];
      SamePrefix([r[0]], RemoveFirst(r[1..] + SUFFIX, SUFFIX), r[1..]);
    }
  }

  lemma PrefixRemoved(r: RoomId)
    ensures RemoveFirst(ChannelOf(r), PREFIX) == r + SUFFIX
  {
    var channel := ChannelOf(r);
    assert channel == PREFIX + (r + SUFFIX);
    assert channel[..|PREFIX|] == PREFIX && channel[|PREFIX|..] == r + SUFFIX;
  }

  /** A subscriber reads back the room, if and only if from the first ":messages" in
      its id on there is nothing but repetitions of it. */
  lemma ReadBackExact(r: RoomId)
    ensures RoomOf(ChannelOf(r)) == r <==> Clean(r)
  {
    PrefixRemoved(r);
    SuffixRemoved(r);
  }

  /** An id with a ":messages" after its first character is read back with it at the
      end. */
  lemma Misread(c: char, tail: string)
    requires c != ':'
    ensures RoomOf(ChannelOf([c] + (SUFFIX + tail))) == [c] + (tail + SUFFIX)
  {
    var r := [c] + (SUFFIX + tail);
    PrefixRemoved(r);
    assert r + SUFFIX == [c] + (SUFFIX + (tail + SUFFIX));
    RemovedBehind(c, SUFFIX + (tail + SUFFIX));
    RemovedAtFront(tail + SUFFIX);
  }

  /** Such an id is read back as another one. */
  lemma MisreadExample()
    ensures RoomOf(ChannelOf("a:messagesb")) == "ab:messages"
  {
    Misread('a', "b");
    assert ['a'] + (SUFFIX + "b") == "a:messagesb" && ['a'] + ("b" + SUFFIX) == "ab:messages";
  }

  lemma RemovedAtFront(tail: string)
    ensures RemoveFirst(SUFFIX + tail, SUFFIX) == tail
  {
    assert (SUFFIX + tail)[..|SUFFIX|] == SUFFIX && (SUFFIX + tail)[|SUFFIX|..] == tail;
  }

  lemma RemovedBehind(c: char, s: string)
    requires c != ':' && |s| >= |SUFFIX|
    ensures RemoveFirst([c] + s, SUFFIX) == [c] + RemoveFirst(s, SUFFIX)
  {
    assert ([c] + s)[..|SUFFIX|][0] == c && ([c] + s)[1..] == s;
  }
}

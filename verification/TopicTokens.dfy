/** `mosquitto_sub_topic_tokenise`: the levels of a topic. */
module TopicTokens {
  import opened Common

  const SLASH: byte := 47

  /** The levels of a topic, cur being the part of the present level already read. */
  function SplitWith(cur: seq<byte>, rest: seq<byte>): (tokens: seq<seq<byte>>)
    ensures |tokens| >= 1
    decreases |rest|
  {
    if rest == [] then [cur]
    else if rest[0] == SLASH then [cur] + SplitWith([], rest[1..])
    else SplitWith(cur + [rest[0]], rest[1..])
  }

  function Split(topic: seq<byte>): (tokens: seq<seq<byte>>)
    ensures |tokens| >= 1
  {
    SplitWith([], topic)
  }

  function Join(tokens: seq<seq<byte>>): seq<byte>
    requires |tokens| >= 1
  {
    if |tokens| == 1 then tokens[0] else tokens[0] + [47] + Join(tokens[1..])  // '/'
  }

  function Slashes(topic: seq<byte>): nat {
    if topic == [] then 0 else (if topic[0] == SLASH then 1 else 0) + Slashes(topic[1..])
  }

  lemma {:induction false} JoinSplitWith(cur: seq<byte>, rest: seq<byte>)
    ensures Join(SplitWith(cur, rest)) == cur + rest
    ensures |SplitWith(cur, rest)| == 1 + Slashes(rest)
    decreases |rest|
  {
    if rest == [] {
      assert cur + [] == cur;
    } else {
      assert rest == [rest[0]] + rest[1..];
      if rest[0] == SLASH {
        JoinSplitWith([], rest[1..]);
        assert SplitWith(cur, rest)[1..] == SplitWith([], rest[1..]);
        assert [] + rest[1..] == rest[1..];
        assert cur + [SLASH] + rest[1..] == cur + rest;
      } else {
        JoinSplitWith(cur + [rest[0]], rest[1..]);
        assert cur + [rest[0]] + rest[1..] == cur + rest;
      }
    }
  }

  /** The levels joined by slashes are the topic; there is one more of them than slashes. */
  lemma JoinSplit(topic: seq<byte>)
    ensures Join(Split(topic)) == topic && |Split(topic)| == 1 + Slashes(topic)
  {
    JoinSplitWith([], topic);
    assert [] + topic == topic;
  }

  predicate NoSlash(token: seq<byte>) {
    47 !in token
  }

  lemma {:induction false} SplitWithLevel(cur: seq<byte>, level: seq<byte>, rest: seq<byte>)
    requires NoSlash(level)
    ensures SplitWith(cur, level + rest) == SplitWith(cur + level, rest)
    decreases |level|
  {
    if level == [] {
      assert level + rest == rest && cur + level == cur;
    } else {
      assert (level + rest)[0] == level[0] && (level + rest)[1..] == level[1..] + rest;
      SplitWithLevel(cur + [level[0]], level[1..], rest);
      assert cur + [level[0]] + level[1..] == cur + level;
    }
  }

  /** Levels without slashes come back from their join: no other split gives the same topic. */
  lemma {:induction false} SplitJoin(tokens: seq<seq<byte>>)
    requires |tokens| >= 1 && forall i :: 0 <= i < |tokens| ==> NoSlash(tokens[i])
    ensures Split(Join(tokens)) == tokens
    decreases |tokens|
  {
    assert NoSlash(tokens[0]);
    if |tokens| == 1 {
      SplitWithLevel([], tokens[0], []);
      assert tokens[0] + [] == tokens[0] && [] + tokens[0] == tokens[0];
      assert tokens == [tokens[0]];
    } else {
      var rest := [SLASH] + Join(tokens[1..]);
      SplitJoin(tokens[1..]);
      SplitWithLevel([], tokens[0], rest);
      assert Join(tokens) == tokens[0] + rest && [] + tokens[0] == tokens[0];
      assert rest[1..] == Join(tokens[1..]);
      assert tokens == [tokens[0]] + tokens[1..];
    }
  }

  lemma {:induction false} SplitNoSlash(cur: seq<byte>, rest: seq<byte>)
    requires NoSlash(cur)
    ensures forall i :: 0 <= i < |SplitWith(cur, rest)| ==> NoSlash(SplitWith(cur, rest)[i])
    decreases |rest|
  {
    if rest != [] {
      if rest[0] == SLASH {
        SplitNoSlash([], rest[1..]);
      } else {
        SplitNoSlash(cur + [rest[0]], rest[1..]);
      }
    }
  }

  /** The tokeniser's levels are the only levels without slashes that join to the topic. */
  lemma SplitUnique(s: seq<byte>, tokens: seq<seq<byte>>)
    ensures tokens == Split(s) <==>
      |tokens| >= 1 && Join(tokens) == s && forall i :: 0 <= i < |tokens| ==> NoSlash(tokens[i])
  {
    JoinSplit(s);
    SplitNoSlash([], s);
    if |tokens| >= 1 && (forall i :: 0 <= i < |tokens| ==> NoSlash(tokens[i])) {
      SplitJoin(tokens);
    }
  }

  /** A stored level: nothing for an empty one, else its bytes and a terminating zero. */
  ghost predicate Holds(token: array?<byte>, level: seq<byte>)
    reads token
  {
    if level == [] then token == null
    else token != null && token.Length == |level| + 1 && token[..|level|] == level && token[|level|] == 0
  }

  method CountLevels(subtopic: seq<byte>) returns (hierCount: nat)
    ensures hierCount == 1 + Slashes(subtopic)
  {
    hierCount := 1;
    var i := 0;
    while i < |subtopic|
      invariant i <= |subtopic| && hierCount + Slashes(subtopic[i..]) == 1 + Slashes(subtopic)
    {
      assert subtopic[i..][1..] == subtopic[i + 1..];
      if subtopic[i] == SLASH {
        hierCount := hierCount + 1;
      }
      i := i + 1;
    }
  }

  method CopyLevel(subtopic: seq<byte>, start: nat, stop: nat) returns (token: array?<byte>)
    requires start <= stop <= |subtopic|
    ensures Holds(token, subtopic[start..stop]) && (token != null ==> fresh(token))
  {
    token := null;
    if start != stop {
      var tlen := stop - start + 1;
      token := new byte[tlen](_ => 0);
      var j := start;
      while j < stop
        invariant start <= j <= stop && token.Length == tlen && fresh(token)
        invariant token[..j - start] == subtopic[start..j] && token[tlen - 1] == 0
      {
        token[j - start] := subtopic[j];
        j := j + 1;
      }
    }
  }

  lemma SplitStep(s: seq<byte>, start: nat, i: nat, done: seq<seq<byte>>)
    requires start <= i < |s|
    ensures done + SplitWith(s[start..i], s[i..]) ==
            if s[i] == SLASH then (done + [s[start..i]]) + SplitWith(s[i + 1..i + 1], s[i + 1..])
            else done + SplitWith(s[start..i + 1], s[i + 1..])
  {
    assert s[i..][0] == s[i] && s[i..][1..] == s[i + 1..];
    assert s[i + 1..i + 1] == [] && s[start..i] + [s[i]] == s[start..i + 1];
  }

  method AddLevel(topics: array<array?<byte>>, hier: nat, subtopic: seq<byte>, start: nat, stop: nat,
                  ghost done: seq<seq<byte>>)
    requires start <= stop <= |subtopic| && hier == |done| < topics.Length
    requires forall k :: 0 <= k < hier ==> Holds(topics[k], done[k])
    modifies topics
    ensures forall k :: 0 <= k <= hier ==> Holds(topics[k], (done + [subtopic[start..stop]])[k])
  {
    var token := CopyLevel(subtopic, start, stop);
    topics[hier] := token;
  }

  /** The levels of a string without zero bytes; the loop runs once more for the terminator. */
  method Tokenise(subtopic: seq<byte>) returns (topics: array<array?<byte>>, count: nat)
    requires 0 !in subtopic
    ensures count == topics.Length == |Split(subtopic)|
    ensures forall k :: 0 <= k < count ==> Holds(topics[k], Split(subtopic)[k])
  {
    count := CountLevels(subtopic);
    topics := new array?<byte>[count](_ => null);
    JoinSplit(subtopic);
    var start, hier, i := 0, 0, 0;
    ghost var done: seq<seq<byte>> := [];
    assert subtopic[0..0] == [] && subtopic[0..] == subtopic;
    while i < |subtopic| + 1
      invariant 0 <= start <= |subtopic| + 1 && hier == |done| && start <= i <= |subtopic| + 1
      invariant i <= |subtopic| ==> done + SplitWith(subtopic[start..i], subtopic[i..]) == Split(subtopic)
      invariant i == |subtopic| + 1 ==> done == Split(subtopic)
      invariant hier <= count
      invariant forall k :: 0 <= k < hier ==> Holds(topics[k], done[k])
    {
      ghost var cur := subtopic[start..i];
      if i < |subtopic| {
        SplitStep(subtopic, start, i, done);
      }
      if i == |subtopic| || subtopic[i] == SLASH {
        var stop := i;
        AddLevel(topics, hier, subtopic, start, stop, done);
        done := done + [cur];
        start := i + 1;
        hier := hier + 1;
      }
      i := i + 1;
    }
  }
}

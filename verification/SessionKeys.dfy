// Session keys: how a channel and a peer are printed into one string, and how the tool
// context reads them back.
module SessionKeys {
  import opened Prelude

  const PEER := ":peer:"
  const MAIN := ":main"
  const CHANNEL := "channel:"

  // std::string::find
  function Find(s: string, pattern: string): (r: Option<nat>)
    requires pattern != ""
    ensures r.Some? ==> r.value + |pattern| <= |s| && s[r.value..r.value + |pattern|] == pattern
  {
    if |s| < |pattern| then None
    else if s[..|pattern|] == pattern then Some(0)
    else
      var r :- Find(s[1..], pattern);
      assert s[1..][r..r + |pattern|] == s[r + 1..r + 1 + |pattern|];
      Some(r + 1)
  }

  // std::string::rfind
  function FindLast(s: string, pattern: string): (r: Option<nat>)
    requires pattern != ""
    ensures r.Some? ==> r.value + |pattern| <= |s|
  {
    if |s| < |pattern| then None
    else if s[|s| - |pattern|..] == pattern then Some(|s| - |pattern|)
    else FindLast(s[..|s| - 1], pattern)
  }

  function ChannelOr(channel: string): string {
    if channel == "" then "unknown-channel" else channel
  }

  function PeerOr(peer: string): string {
    if peer == "" then "unknown-peer" else peer
  }

  function DeriveSessionKey(dmScope: string, channel: string, peer: string): string {
    if dmScope == "main" then ChannelOr(channel) + MAIN
    else if dmScope == "per-peer" then ChannelOr(channel) + PEER + PeerOr(peer)
    else if dmScope == "per-channel-peer" then CHANNEL + ChannelOr(channel) + PEER + PeerOr(peer)
    else ChannelOr(channel) + MAIN
  }

  datatype Context = Context(channel: string, peer: string)

  function SplitAt(s: string, pos: nat): Context
    requires pos + |PEER| <= |s|
  {
    Context(s[..pos], s[pos + |PEER|..])
  }

  function ContextFromSessionKey(key: string): Context {
    if CHANNEL <= key && Find(key[|CHANNEL|..], PEER).Some? then
      var rest := key[|CHANNEL|..];
      SplitAt(rest, Find(rest, PEER).value)
    else if Find(key, PEER).Some? then SplitAt(key, Find(key, PEER).value)
    else
      var at := FindLast(key, MAIN);
      if at.Some? && at.value == |key| - 5 then Context(key[..at.value], "")
      else Context("unknown", "")
  }

  // ------------------------------------------------------------------
  // When the printed separator is the first one

  // Appending ":peer:" to the channel makes no earlier occurrence.
  predicate Clean(channel: string) {
    Find(channel + PEER, PEER) == Some(|channel|)
  }

  // Text after a complete occurrence does not move the first one.
  lemma {:induction false} FindIgnoresTail(s: string, tail: string, pattern: string)
    requires pattern != "" && Find(s, pattern).Some?
    ensures Find(s + tail, pattern) == Find(s, pattern)
  {
    assert (s + tail)[..|pattern|] == s[..|pattern|];
    if s[..|pattern|] != pattern {
      FindIgnoresTail(s[1..], tail, pattern);
      assert (s + tail)[1..] == s[1..] + tail;
    }
  }

  lemma {:induction false} FindExists(s: string, pattern: string, k: nat)
    requires pattern != "" && k + |pattern| <= |s| && s[k..k + |pattern|] == pattern
    ensures Find(s, pattern).Some? && Find(s, pattern).value <= k
  {
    if s[..|pattern|] != pattern {
      assert s[1..][k - 1..k - 1 + |pattern|] == s[k..k + |pattern|];
      FindExists(s[1..], pattern, k - 1);
    }
  }

  lemma FindInKey(channel: string, peer: string)
    ensures Find(channel + PEER + peer, PEER).Some?
    ensures Find(channel + PEER + peer, PEER) == Find(channel + PEER, PEER)
    ensures Find(channel + PEER + peer, PEER).value <= |channel|
  {
    var s := channel + PEER;
    assert s[|channel|..|channel| + |PEER|] == PEER;
    FindExists(s, PEER, |channel|);
    FindIgnoresTail(s, peer, PEER);
  }

  // A channel without colons is clean.
  lemma {:induction false} ColonFreeIsClean(channel: string)
    requires ':' !in channel
    ensures Clean(channel)
  {
    var s := channel + PEER;
    if channel == "" {
      assert s[..|PEER|] == PEER;
    } else {
      assert s[0] == channel[0] != ':';
      assert s[..|PEER|][0] != PEER[0];
      ColonFreeIsClean(channel[1..]);
      assert s[1..] == channel[1..] + PEER;
    }
  }

  // ------------------------------------------------------------------
  // Round trips, for every channel and every peer

  // Main result 1. In per-channel-peer scope the context is read back exactly for the
  // clean channels, whatever the peer holds.
  lemma PerChannelPeerRoundTrip(channel: string, peer: string)
    ensures ContextFromSessionKey(DeriveSessionKey("per-channel-peer", channel, peer))
            == Context(ChannelOr(channel), PeerOr(peer))
       <==> Clean(ChannelOr(channel))
  {
    var c, p := ChannelOr(channel), PeerOr(peer);
    var key := CHANNEL + c + PEER + p;
    assert key[|CHANNEL|..] == c + PEER + p;
    SplitIsRight(c, p);
  }

  // Splitting at the first separator is right exactly for clean channels.
  lemma SplitIsRight(c: string, p: string)
    ensures Find(c + PEER + p, PEER).Some?
    ensures SplitAt(c + PEER + p, Find(c + PEER + p, PEER).value) == Context(c, p) <==> Clean(c)
  {
    FindInKey(c, p);
    var s := c + PEER + p;
    var pos := Find(s, PEER).value;
    if pos == |c| {
      assert s[..pos] == c && s[pos + |PEER|..] == p;
    }
  }

  // Main result 2. In per-peer scope two more families fail: channels that begin with
  // "channel:", and the channel "channel" itself with a peer that brings a separator.
  lemma PerPeerRoundTrip(channel: string, peer: string)
    ensures ContextFromSessionKey(DeriveSessionKey("per-peer", channel, peer))
            == Context(ChannelOr(channel), PeerOr(peer))
       <==> Clean(ChannelOr(channel)) && !Misread(ChannelOr(channel), PeerOr(peer))
  {
    var c, p := ChannelOr(channel), PeerOr(peer);
    SplitIsRight(c, p);
    ChannelPrefix(c, p);
    if CHANNEL <= c + PEER + p {
      ChannelBranch(c, p);
    }
  }

  // The per-peer key also reads as a per-channel-peer key.
  predicate Misread(channel: string, peer: string) {
    CHANNEL <= channel || (channel == "channel" && Find("peer:" + peer, PEER).Some?)
  }

  // Then the parts are too short to be channel and peer.
  lemma ChannelBranch(c: string, p: string)
    requires CHANNEL <= c + PEER + p
    ensures Find((c + PEER + p)[|CHANNEL|..], PEER).Some? <==> Misread(c, p)
    ensures Misread(c, p) ==> ContextFromSessionKey(c + PEER + p) != Context(c, p)
  {
    var key := c + PEER + p;
    var rest := key[|CHANNEL|..];
    ChannelPrefix(c, p);
    if CHANNEL <= c {
      assert rest == c[|CHANNEL|..] + PEER + p;
      FindInKey(c[|CHANNEL|..], p);
    } else {
      assert rest == "peer:" + p;
    }
    if Find(rest, PEER).Some? {
      var x := SplitAt(rest, Find(rest, PEER).value);
      assert ContextFromSessionKey(key) == x;
      assert |x.channel| + |x.peer| < |c| + |p|;
    }
  }

  // When does channel + ":peer:" + peer begin with "channel:"?
  lemma ChannelPrefix(c: string, p: string)
    ensures CHANNEL <= c + PEER + p <==> CHANNEL <= c || c == "channel"
  {
    var key := c + PEER + p;
    if CHANNEL <= key && |c| < |CHANNEL| {
      assert key[|c|] == ':' && key[|c|] == CHANNEL[|c|];
      assert |c| == 7;
      assert c == key[..7] == CHANNEL[..7] == "channel";
    }
    if c == "channel" {
      assert key[..8] == CHANNEL;
    }
  }

  // Main result 3. In main scope, also the scope for unknown settings, the channel comes
  // back with an empty peer unless a separator can be read in channel + ":main".
  lemma MainRoundTrip(dmScope: string, channel: string, peer: string)
    requires dmScope != "per-peer" && dmScope != "per-channel-peer"
    ensures ContextFromSessionKey(DeriveSessionKey(dmScope, channel, peer)) == Context(ChannelOr(channel), "")
       <==> Find(ChannelOr(channel) + MAIN, PEER).None?
  {
    var c := ChannelOr(channel);
    var key := c + MAIN;
    assert key[|key| - |MAIN|..] == MAIN;
    if CHANNEL <= key && Find(key[|CHANNEL|..], PEER).Some? {
      var pos := Find(key[|CHANNEL|..], PEER).value;
      assert key[|CHANNEL| + pos..|CHANNEL| + pos + |PEER|] == key[|CHANNEL|..][pos..pos + |PEER|];
      FindExists(key, PEER, |CHANNEL| + pos);
    } else if Find(key, PEER).Some? {
    } else {
      assert key[..|c|] == c;
    }
  }

  lemma {:induction false} ColonFreeMain(channel: string)
    requires ':' !in channel
    ensures Find(channel + MAIN, PEER).None?
  {
    var s := channel + MAIN;
    if channel != "" {
      assert s[0] == channel[0];
      if |s| >= |PEER| {
        assert s[..|PEER|][0] != PEER[0];
      }
      assert s[1..] == channel[1..] + MAIN;
      ColonFreeMain(channel[1..]);
    }
  }

  // ------------------------------------------------------------------
  // When two (channel, peer) pairs share a session

  // The longer channel goes on where the shorter one has its separator.
  predicate Nested(c1: string, c2: string) {
    c1 != c2 && (c1 + PEER <= c2 + PEER || c2 + PEER <= c1 + PEER)
  }

  // The first peer holds what the second channel has beyond the first separator, and the
  // second peer.
  predicate Spills(c1: string, p1: string, c2: string, p2: string) {
    |c1| < |c2| && c1 + PEER <= c2 + PEER && p1 == (c2 + PEER)[|c1 + PEER|..] + p2
  }

  lemma SplitPrefix(x: string, y: string)
    requires x <= y
    ensures y == x + y[|x|..]
  {
  }

  lemma SpillsMeansSame(c1: string, p1: string, c2: string, p2: string)
    requires |c1| < |c2|
    ensures c1 + PEER + p1 == c2 + PEER + p2 <==> Spills(c1, p1, c2, p2)
  {
    var x1, x2 := c1 + PEER, c2 + PEER;
    if x1 + p1 == x2 + p2 {
      assert x1 == (x2 + p2)[..|x1|] == x2[..|x1|];
      assert p1 == (x2 + p2)[|x1|..] == x2[|x1|..] + p2;
    }
    if x1 <= x2 {
      SplitPrefix(x1, x2);
      assert x1 + (x2[|x1|..] + p2) == (x1 + x2[|x1|..]) + p2;
    }
  }

  lemma SameLengthMeansSame(c1: string, p1: string, c2: string, p2: string)
    requires |c1| == |c2|
    ensures c1 + PEER + p1 == c2 + PEER + p2 <==> c1 == c2 && p1 == p2
  {
    var key1, key2 := c1 + PEER + p1, c2 + PEER + p2;
    assert key1[..|c1|] == c1 && key1[|c1| + |PEER|..] == p1;
    assert key2[..|c2|] == c2 && key2[|c2| + |PEER|..] == p2;
  }

  // Main result 4. In the two per-peer scopes two pairs share a session exactly when they
  // are the same pair or one of them spills into the other, for all channels and peers.
  lemma SharedExactly(dmScope: string, c1: string, p1: string, c2: string, p2: string)
    requires dmScope == "per-peer" || dmScope == "per-channel-peer"
    ensures var a1, b1, a2, b2 := ChannelOr(c1), PeerOr(p1), ChannelOr(c2), PeerOr(p2);
      DeriveSessionKey(dmScope, c1, p1) == DeriveSessionKey(dmScope, c2, p2) <==>
        (a1 == a2 && b1 == b2) || Spills(a1, b1, a2, b2) || Spills(a2, b2, a1, b1)
  {
    var a1, b1, a2, b2 := ChannelOr(c1), PeerOr(p1), ChannelOr(c2), PeerOr(p2);
    KeysCompare(dmScope, c1, p1, c2, p2);
    if |a1| < |a2| {
      SpillsMeansSame(a1, b1, a2, b2);
    } else if |a2| < |a1| {
      SpillsMeansSame(a2, b2, a1, b1);
    } else {
      SameLengthMeansSame(a1, b1, a2, b2);
    }
  }

  // The prefix of per-channel-peer keys does not matter for the comparison.
  lemma KeysCompare(dmScope: string, c1: string, p1: string, c2: string, p2: string)
    requires dmScope == "per-peer" || dmScope == "per-channel-peer"
    ensures DeriveSessionKey(dmScope, c1, p1) == DeriveSessionKey(dmScope, c2, p2)
       <==> ChannelOr(c1) + PEER + PeerOr(p1) == ChannelOr(c2) + PEER + PeerOr(p2)
  {
    DropChannel(ChannelOr(c1), PeerOr(p1));
    DropChannel(ChannelOr(c2), PeerOr(p2));
  }

  lemma DropChannel(c: string, p: string)
    ensures CHANNEL + c + PEER + p == CHANNEL + (c + PEER + p)
    ensures (CHANNEL + c + PEER + p)[|CHANNEL|..] == c + PEER + p
  {
  }

  // Main result 5. So two different channels have a session in common, for some peers,
  // exactly when they are nested.
  lemma ChannelsCollideExactly(dmScope: string, c1: string, c2: string)
    requires dmScope == "per-peer" || dmScope == "per-channel-peer"
    requires ChannelOr(c1) != ChannelOr(c2)
    ensures (exists p1, p2 :: DeriveSessionKey(dmScope, c1, p1) == DeriveSessionKey(dmScope, c2, p2))
       <==> Nested(ChannelOr(c1), ChannelOr(c2))
  {
    var a1, a2 := ChannelOr(c1), ChannelOr(c2);
    forall p1, p2 | DeriveSessionKey(dmScope, c1, p1) == DeriveSessionKey(dmScope, c2, p2)
      ensures Nested(a1, a2)
    {
      SharedExactly(dmScope, c1, p1, c2, p2);
    }
    if Nested(a1, a2) {
      if |a1| < |a2| {
        var p1, p2 := SomeSpill(dmScope, c1, c2);
      } else {
        var p2, p1 := SomeSpill(dmScope, c2, c1);
        assert DeriveSessionKey(dmScope, c1, p1) == DeriveSessionKey(dmScope, c2, p2);
      }
    }
  }

  lemma SomeSpill(dmScope: string, c1: string, c2: string) returns (p1: string, p2: string)
    requires dmScope == "per-peer" || dmScope == "per-channel-peer"
    requires Nested(ChannelOr(c1), ChannelOr(c2)) && |ChannelOr(c1)| <= |ChannelOr(c2)|
    ensures DeriveSessionKey(dmScope, c1, p1) == DeriveSessionKey(dmScope, c2, p2)
  {
    var a1, a2 := ChannelOr(c1), ChannelOr(c2);
    NestedIsShorter(a1, a2);
    p2 := "x";
    p1 := (a2 + PEER)[|a1 + PEER|..] + p2;
    SharedExactly(dmScope, c1, p1, c2, p2);
  }

  lemma NestedIsShorter(c1: string, c2: string)
    requires Nested(c1, c2) && |c1| <= |c2|
    ensures |c1| < |c2| && c1 + PEER <= c2 + PEER
  {
    if |c1| == |c2| {
      if c1 + PEER <= c2 + PEER {
        SameLengthPrefix(c1, c2);
      } else {
        SameLengthPrefix(c2, c1);
      }
    }
  }

  lemma SameLengthPrefix(c1: string, c2: string)
    requires |c1| == |c2| && c1 + PEER <= c2 + PEER
    ensures c1 == c2
  {
    assert c1 == (c1 + PEER)[..|c1|] && c2 == (c2 + PEER)[..|c2|];
  }

  // Hence different pairs never share a session, unless their channels are nested.
  lemma SessionsAreSeparate(dmScope: string, c1: string, p1: string, c2: string, p2: string)
    requires dmScope == "per-peer" || dmScope == "per-channel-peer"
    requires !Nested(ChannelOr(c1), ChannelOr(c2))
    ensures DeriveSessionKey(dmScope, c1, p1) == DeriveSessionKey(dmScope, c2, p2)
       <==> ChannelOr(c1) == ChannelOr(c2) && PeerOr(p1) == PeerOr(p2)
  {
    SharedExactly(dmScope, c1, p1, c2, p2);
  }

  // Clean channels, so all channels without colons, are never nested.
  lemma CleanIsNotNested(c1: string, c2: string)
    requires Clean(c1) && Clean(c2)
    ensures !Nested(c1, c2)
  {
    if Nested(c1, c2) {
      if |c1| <= |c2| {
        InnerIsUnclean(c1, c2);
      } else {
        InnerIsUnclean(c2, c1);
      }
    }
  }

  // The separator after the shorter channel is an earlier one in the longer channel.
  lemma InnerIsUnclean(c1: string, c2: string)
    requires Nested(c1, c2) && |c1| <= |c2|
    ensures !Clean(c2)
  {
    NestedIsShorter(c1, c2);
    var s := c2 + PEER;
    assert s[|c1|..|c1| + |PEER|] == (c1 + PEER)[|c1|..] == PEER;
    FindExists(s, PEER, |c1|);
  }

  // The smallest instance: "a" and "a:peer:b" are nested, and these two pairs share a key.
  lemma UncleanChannelsCollide()
    ensures DeriveSessionKey("per-peer", "a:peer:b", "c") == DeriveSessionKey("per-peer", "a", "b:peer:c")
    ensures Nested("a", "a:peer:b") && !Clean("a:peer:b")
  {
    assert "a:peer:b" + PEER + "c" == "a" + PEER + "b:peer:c";
    assert ("a:peer:b" + PEER)[..|"a" + PEER|] == "a" + PEER;
    InnerIsUnclean("a", "a:peer:b");
  }

  // ------------------------------------------------------------------
  // The texts themselves

  // What a key is in each scope, with the names for what is missing.
  lemma KeyMeaning(dmScope: string, channel: string, peer: string)
    ensures
      var c, p := if channel == "" then "unknown-channel" else channel, if peer == "" then "unknown-peer" else peer;
      DeriveSessionKey(dmScope, channel, peer) ==
        if dmScope == "per-channel-peer" then "channel:" + c + ":peer:" + p
        else if dmScope == "per-peer" then c + ":peer:" + p
        else c + ":main"
  {
  }

  // The three round trips for names that are given.
  lemma GivenNames(dmScope: string, channel: string, peer: string)
    requires channel != "" && peer != ""
    ensures var read := ContextFromSessionKey(DeriveSessionKey(dmScope, channel, peer));
      if dmScope == "per-channel-peer" then read == Context(channel, peer) <==> Clean(channel)
      else if dmScope == "per-peer" then read == Context(channel, peer) <==> Clean(channel) && !Misread(channel, peer)
      else read == Context(channel, "") <==> NoPeer(channel + ":main")
  {
    if dmScope == "per-channel-peer" {
      PerChannelPeerRoundTrip(channel, peer);
    } else if dmScope == "per-peer" {
      PerPeerRoundTrip(channel, peer);
    } else {
      MainRoundTrip(dmScope, channel, peer);
      FindMeaning(channel + MAIN);
    }
  }

  // Where a text first holds a separator.
  ghost predicate FirstAt(s: string, k: int) {
    HoldsAt(s, k) && forall i :: 0 <= i < k ==> !HoldsAt(s, i)
  }

  predicate HoldsAt(s: string, k: int) {
    0 <= k && k + 6 <= |s| && s[k..k + 6] == ":peer:"
  }

  // The parts of a text around its first separator.
  ghost predicate Parts(s: string, x: Context) {
    exists k :: FirstAt(s, k) && x == Context(s[..k], s[k + 6..])
  }

  ghost predicate NoPeer(s: string) {
    forall k :: !HoldsAt(s, k)
  }

  // Main result 6. How any text is read as a key: around its first separator, that after
  // "channel:" before any other; without one, as a main session's, or as unknown.
  lemma ReadMeaning(key: string)
    ensures
      var x := ContextFromSessionKey(key);
      var rest := if |key| >= 8 && key[..8] == "channel:" then key[8..] else "";
      if !NoPeer(rest) then Parts(rest, x)
      else if !NoPeer(key) then Parts(key, x)
      else if |key| >= 5 && key[|key| - 5..] == ":main" then x == Context(key[..|key| - 5], "")
      else x == Context("unknown", "")
  {
    FirstSplit(key);
    EndsInMain(key);
    if |key| >= 8 && key[..8] == "channel:" {
      FirstSplit(key[8..]);
    } else {
      FirstSplit("");
    }
  }

  // Where the reader splits a text.
  lemma FirstSplit(s: string)
    ensures Find(s, PEER).None? <==> NoPeer(s)
    ensures Find(s, PEER).Some? ==> Parts(s, SplitAt(s, Find(s, PEER).value))
  {
    FindMeaning(s);
    if Find(s, PEER).Some? {
      var k := Find(s, PEER).value;
      assert FirstAt(s, k) && SplitAt(s, k) == Context(s[..k], s[k + 6..]);
    }
  }

  lemma EndsInMain(s: string)
    ensures FindLast(s, MAIN).Some? && FindLast(s, MAIN).value == |s| - 5 <==> |s| >= 5 && s[|s| - 5..] == ":main"
  {
  }

  lemma FindMeaning(s: string)
    ensures Find(s, PEER).None? <==> NoPeer(s)
    ensures Find(s, PEER).Some? ==> FirstAt(s, Find(s, PEER).value)
  {
    forall k | HoldsAt(s, k)
      ensures Find(s, PEER).Some? && Find(s, PEER).value <= k
    {
      FindExists(s, PEER, k);
    }
    if Find(s, PEER).Some? {
      assert HoldsAt(s, Find(s, PEER).value);
    }
  }
}

/** Class traces: the path of port/channel hops that a non-fungible token class has travelled. */
module ClassTraces {
  import opened Bytes

  datatype ClassTrace = ClassTrace(path: Text, base: Text)

  // "ibc/"
  const IBC_PREFIX: Text := [0x69, 0x62, 0x63, 0x2F]

  // "ics721-1"
  const VERSION: Text := [0x69, 0x63, 0x73, 0x37, 0x32, 0x31, 0x2D, 0x31]

  // ---- splitting and joining at slashes ---------------------------------------------------

  function Split(s: Text): (parts: seq<Text>)
    ensures |parts| >= 1
  {
    if s == [] then [[]]
    else
      Cons(s[0], Split(s[1..]))
  }

  function Join(parts: seq<Text>): Text {
    if parts == [] then []
    else if |parts| == 1 then parts[0]
    else parts[0] + [SLASH] + Join(parts[1..])
  }

  function ParseClassTrace(raw: Text): ClassTrace {
    var parts := Split(raw);
    if parts[0] == raw then ClassTrace([], raw)
    else ClassTrace(Join(parts[..|parts| - 1]), parts[|parts| - 1])
  }

  function FullClassPath(t: ClassTrace): Text {
    if t.path == [] then t.base else t.path + [SLASH] + t.base
  }

  lemma {:induction false} SplitSlashFree(s: Text)
    requires SlashFree(s)
    ensures Split(s) == [s]
  {
    if s != [] {
      SplitSlashFree(s[1..]);
      assert s == [s[0]] + s[1..];
    }
  }

  /** Splitting distributes over a slash. */
  lemma {:induction false} SplitAtSlash(a: Text, b: Text)
    ensures Split(a + [SLASH] + b) == Split(a) + Split(b)
  {
    var s := a + [SLASH] + b;
    if a == [] {
      assert s[1..] == b;
    } else {
      SplitAtSlash(a[1..], b);
      assert s[1..] == a[1..] + [SLASH] + b;
      ConsDistributes(a[0], Split(a[1..]), Split(b));
    }
  }

  /** How a first character extends the parts of the remaining text. */
  function Cons(c: byte, rest: seq<Text>): seq<Text>
    requires |rest| >= 1
  {
    if c == SLASH then [[]] + rest else [[c] + rest[0]] + rest[1..]
  }

  lemma ConsDistributes(c: byte, a: seq<Text>, b: seq<Text>)
    requires |a| >= 1
    ensures Cons(c, a + b) == Cons(c, a) + b
  {
    assert (a + b)[1..] == a[1..] + b;
  }

  lemma {:induction false} JoinSplit(s: Text)
    ensures Join(Split(s)) == s
  {
    if s != [] {
      JoinSplit(s[1..]);
      var rest := Split(s[1..]);
      assert s == [s[0]] + s[1..];
      if s[0] == SLASH {
        assert ([[]] + rest)[1..] == rest;
      } else if |rest| > 1 {
        assert ([[s[0]] + rest[0]] + rest[1..])[1..] == rest[1..];
      }
    }
  }

  /** The last slash of a text that has one. */
  lemma {:induction false} LastSlash(s: Text) returns (a: Text, b: Text)
    requires !SlashFree(s)
    ensures s == a + [SLASH] + b && SlashFree(b)
  {
    var n := |s| - 1;
    if s[n] == SLASH {
      a, b := s[..n], [];
    } else {
      var a', b' := LastSlash(s[..n]) by {
        SlashFreeConcat(s[..n], s[n..]);
        assert s == s[..n] + s[n..];
      }
      a, b := a', b' + [s[n]];
      SlashFreeConcat(b', [s[n]]);
    }
  }

  /** Parsing cuts at the last slash, and nowhere when there is none. */
  lemma ParseCutsAtLastSlash(a: Text, b: Text)
    requires SlashFree(b)
    ensures ParseClassTrace(b) == ClassTrace([], b)
    ensures ParseClassTrace(a + [SLASH] + b) == ClassTrace(a, b)
  {
    SplitSlashFree(b);
    SplitAtSlash(a, b);
    JoinSplit(a);
    var s := a + [SLASH] + b;
    var parts := Split(s);
    assert parts == Split(a) + [b];
    assert parts[..|parts| - 1] == Split(a);
    FirstPartSlashFree(s);
    assert s[|a|] == SLASH;
  }

  lemma {:induction false} FirstPartSlashFree(s: Text)
    ensures SlashFree(Split(s)[0])
  {
    if s != [] {
      FirstPartSlashFree(s[1..]);
      if s[0] != SLASH {
        SlashFreeConcat([s[0]], Split(s[1..])[0]);
      }
    }
  }

  /** The one shape of text that parsing does not keep: a single slash, in front. */
  predicate OnlySlashInFront(s: Text) {
    |s| > 0 && s[0] == SLASH && SlashFree(s[1..])
  }

  /** Printing a parsed text gives the text back, except exactly for a lone leading slash. */
  lemma PrintAfterParse(s: Text)
    ensures FullClassPath(ParseClassTrace(s)) == s <==> !OnlySlashInFront(s)
  {
    if SlashFree(s) {
      ParseCutsAtLastSlash([], s);
    } else {
      var a, b := LastSlash(s);
      ParseCutsAtLastSlash(a, b);
      if a == [] {
        assert s[1..] == b;
      } else if s[0] == SLASH {
        assert s[1..] == a[1..] + [SLASH] + b;
        assert s[1..][|a| - 1] == SLASH;
      }
    }
  }

  /** Parsing a printed trace gives the trace back, exactly when its base has no slash. */
  lemma ParseAfterPrint(t: ClassTrace)
    ensures ParseClassTrace(FullClassPath(t)) == t <==> SlashFree(t.base)
  {
    if SlashFree(t.base) {
      ParseCutsAtLastSlash(t.path, t.base);
    } else {
      ParsedBaseSlashFree(FullClassPath(t));
    }
  }

  lemma ParsedBaseSlashFree(s: Text)
    ensures SlashFree(ParseClassTrace(s).base)
  {
    if SlashFree(s) {
      ParseCutsAtLastSlash([], s);
    } else {
      var a, b := LastSlash(s);
      ParseCutsAtLastSlash(a, b);
    }
  }

  // ---- class identifiers -------------------------------------------------------------------

  function IbcClassId(sha: Text -> Digest, t: ClassTrace): Text {
    if t.path != [] then IBC_PREFIX + HexEncode(sha(FullClassPath(t))) else t.base
  }

  /** The class identifier under which a chain stores the class with the given full path. */
  function ClassId(sha: Text -> Digest, path: Text): Text {
    IbcClassId(sha, ParseClassTrace(path))
  }

  /** What is hashed for the escrow account of a channel end. */
  function EscrowPreimage(port: Text, channel: Text): Text {
    VERSION + [0] + port + [SLASH] + channel
  }

  /** ADR 028 address of the account that holds the tokens sent over a channel. */
  function EscrowAddress(sha: Text -> Digest, port: Text, channel: Text): Text {
    sha(EscrowPreimage(port, channel))[..20]
  }

  /** The first 20 bytes of the hash of the version, a zero byte, the port, a slash and the channel. */
  lemma EscrowAddressIs(sha: Text -> Digest, port: Text, channel: Text)
    ensures |EscrowAddress(sha, port, channel)| == 20
    ensures EscrowAddress(sha, port, channel) <= sha(Ascii("ics721-1") + [0] + port + Ascii("/") + channel)
  {
    assert VERSION == Ascii("ics721-1") && [SLASH] == Ascii("/");
  }

  /** The version, a zero byte, and then the port and the channel, which split apart again. */
  lemma PreimageParts(port: Text, channel: Text)
    requires SlashFree(port) && SlashFree(channel)
    ensures HasPrefix(EscrowPreimage(port, channel), [0x69, 0x63, 0x73, 0x37, 0x32, 0x31, 0x2D, 0x31, 0x00])
    ensures Split(EscrowPreimage(port, channel)[9..]) == [port, channel]
  {
    assert EscrowPreimage(port, channel)[9..] == port + [SLASH] + channel;
    SplitAtSlash(port, channel);
    SplitSlashFree(port);
    SplitSlashFree(channel);
  }

  /** Different channel ends have different preimages. */
  lemma PreimageUnique(port: Text, channel: Text, port': Text, channel': Text)
    requires SlashFree(port) && SlashFree(channel) && SlashFree(port') && SlashFree(channel')
    requires EscrowPreimage(port, channel) == EscrowPreimage(port', channel')
    ensures port == port' && channel == channel'
  {
    PreimageParts(port, channel);
    PreimageParts(port', channel');
    assert [port, channel][0] == [port', channel'][0] && [port, channel][1] == [port', channel'][1];
  }

  /** A prefix puts the port and then the channel in front of a path's parts. */
  lemma PrefixParts(port: Text, channel: Text, rest: Text)
    requires SlashFree(port) && SlashFree(channel)
    ensures Split(ClassPrefix(port, channel) + rest) == [port, channel] + Split(rest)
  {
    var tail := channel + [SLASH] + rest;
    SplitAtSlash(channel, rest);
    SplitSlashFree(channel);
    SplitAtSlash(port, tail);
    SplitSlashFree(port);
    assert ClassPrefix(port, channel) + rest == port + [SLASH] + tail;
    TwoParts(port, channel, Split(rest));
  }

  lemma TwoParts(a: Text, b: Text, rest: seq<Text>)
    ensures [a] + ([b] + rest) == [a, b] + rest
  {
  }

  function ClassPrefix(port: Text, channel: Text): Text {
    port + [SLASH] + channel + [SLASH]
  }

  predicate IsAwayFromOrigin(port: Text, channel: Text, path: Text) {
    !HasPrefix(path, ClassPrefix(port, channel))
  }

  function RemoveClassPrefix(port: Text, channel: Text, path: Text): Text
    requires HasPrefix(path, ClassPrefix(port, channel))
  {
    path[|ClassPrefix(port, channel)|..]
  }

  lemma NativeClassId(sha: Text -> Digest, path: Text)
    requires SlashFree(path)
    ensures ClassId(sha, path) == path
    ensures !HasPrefix(path, IBC_PREFIX)
  {
    ParseCutsAtLastSlash([], path);
    assert SLASH in IBC_PREFIX by { assert IBC_PREFIX[3] == SLASH; }
  }

  lemma PrefixedClassId(sha: Text -> Digest, port: Text, channel: Text, rest: Text)
    ensures var path := ClassPrefix(port, channel) + rest;
            && ClassId(sha, path) == IBC_PREFIX + HexEncode(sha(path))
            && FullClassPath(ParseClassTrace(path)) == path
            && !SlashFree(path)
  {
    var path := ClassPrefix(port, channel) + rest;
    assert path[|port|] == SLASH;
    var tail := channel + [SLASH] + rest;
    assert tail[|channel|] == SLASH;
    assert path == port + [SLASH] + tail;
    var a, b := LastSlash(tail);
    assert path == (port + [SLASH] + a) + [SLASH] + b;
    ParseCutsAtLastSlash(port + [SLASH] + a, b);
  }

  lemma IdPair(d: Digest, id: Text, i: nat)
    requires id == IBC_PREFIX + HexEncode(d) && i < 32
    ensures |id| == 68 && UpperHex(id[2 * i + 4]) && UpperHex(id[2 * i + 5])
    ensures d[i] == 16 * UpperValue(id[2 * i + 4]) + UpperValue(id[2 * i + 5])
  {
    HexRoundTrip(d);
    HexText(d, i);
    assert id[2 * i + 4] == HexEncode(d)[2 * i] && id[2 * i + 5] == HexEncode(d)[2 * i + 1];
  }

  lemma IdDigits(d: Digest, id: Text)
    requires id == IBC_PREFIX + HexEncode(d)
    ensures |id| == 68 && forall i :: 4 <= i < 68 ==> UpperHex(id[i])
  {
    IdPair(d, id, 0);
    forall i | 4 <= i < 68
      ensures UpperHex(id[i])
    {
      var j := (i - 4) / 2;
      IdPair(d, id, j);
      assert i == 2 * j + 4 || i == 2 * j + 5;
    }
  }

  /** The id of a voucher class is "ibc/" and the hash of its path, two upper-case digits a byte, the high one first. */
  lemma VoucherClassId(sha: Text -> Digest, port: Text, channel: Text, rest: Text)
    ensures
      var path := ClassPrefix(port, channel) + rest;
      var id := ClassId(sha, path);
      && |id| == 68 && id[..4] == [0x69, 0x62, 0x63, 0x2F]
      && (forall i :: 4 <= i < 68 ==> UpperHex(id[i]))
      && (forall i :: 0 <= i < 32 ==> sha(path)[i] == 16 * UpperValue(id[2 * i + 4]) + UpperValue(id[2 * i + 5]))
  {
    var path := ClassPrefix(port, channel) + rest;
    PrefixedClassId(sha, port, channel, rest);
    IdDigits(sha(path), ClassId(sha, path));
    forall i | 0 <= i < 32
      ensures sha(path)[i] ==
        16 * UpperValue(ClassId(sha, path)[2 * i + 4]) + UpperValue(ClassId(sha, path)[2 * i + 5])
    {
      IdPair(sha(path), ClassId(sha, path), i);
    }
  }

  /** A path starts with at most one port/channel pair. */
  lemma PrefixUnique(p: Text, c: Text, p': Text, c': Text, path: Text)
    requires SlashFree(p) && SlashFree(c) && SlashFree(p') && SlashFree(c')
    requires HasPrefix(path, ClassPrefix(p, c)) && HasPrefix(path, ClassPrefix(p', c'))
    ensures p == p' && c == c'
  {
    FirstSlash(p, path, p');
    assert path[|p| + 1..][..|c| + 1] == c + [SLASH];
    assert path[|p| + 1..][..|c'| + 1] == c' + [SLASH];
    FirstSlash(c, path[|p| + 1..], c');
  }

  lemma NoSlashBefore(a: Text, s: Text, k: nat)
    requires a + [SLASH] <= s && k < |s|
    ensures s[|a|] == SLASH
    ensures SlashFree(a) && s[k] == SLASH ==> |a| <= k
  {
    assert k < |a| ==> s[k] == a[k];
  }

  lemma FirstSlash(a: Text, s: Text, a': Text)
    requires SlashFree(a) && SlashFree(a')
    requires a + [SLASH] <= s && a' + [SLASH] <= s
    ensures a == a'
  {
    NoSlashBefore(a, s, |a'|);
    NoSlashBefore(a', s, |a|);
    assert a == s[..|a|] && a' == s[..|a'|];
  }

  // ---- hops ----------------------------------------------------------------------------------

  /** One transfer over a channel, seen from the sending side. */
  datatype Hop = Hop(srcPort: Text, srcChannel: Text, dstPort: Text, dstChannel: Text)

  function Reverse(h: Hop): Hop {
    Hop(h.dstPort, h.dstChannel, h.srcPort, h.srcChannel)
  }

  /** The full class path at the receiver of a transfer. */
  function PathAfter(path: Text, h: Hop): Text {
    if IsAwayFromOrigin(h.srcPort, h.srcChannel, path)
    then ClassPrefix(h.dstPort, h.dstChannel) + path
    else RemoveClassPrefix(h.srcPort, h.srcChannel, path)
  }

  function PathAfterAll(path: Text, hops: seq<Hop>): Text
    decreases |hops|
  {
    if hops == [] then path else PathAfterAll(PathAfter(path, hops[0]), hops[1..])
  }

  function ReverseAll(hops: seq<Hop>): seq<Hop> {
    if hops == [] then [] else ReverseAll(hops[1..]) + [Reverse(hops[0])]
  }

  /** Every hop of the journey moves away from the origin. */
  predicate Outward(path: Text, hops: seq<Hop>)
    decreases |hops|
  {
    hops == [] ||
    (IsAwayFromOrigin(hops[0].srcPort, hops[0].srcChannel, path) &&
     Outward(PathAfter(path, hops[0]), hops[1..]))
  }

  lemma {:induction false} PathAfterConcat(path: Text, g: seq<Hop>, h: seq<Hop>)
    ensures PathAfterAll(path, g + h) == PathAfterAll(PathAfterAll(path, g), h)
    decreases |g|
  {
    if g == [] {
      assert g + h == h;
    } else {
      assert (g + h)[1..] == g[1..] + h;
      PathAfterConcat(PathAfter(path, g[0]), g[1..], h);
    }
  }

  lemma BackOneHop(path: Text, h: Hop)
    requires Outward(path, [h])
    ensures PathAfterAll(PathAfter(path, h), [Reverse(h)]) == path
  {
    var next, back := PathAfter(path, h), [Reverse(h)];
    assert [h][0] == h && back[1..] == [];
    assert PathAfterAll(next, back) == PathAfterAll(PathAfter(next, back[0]), back[1..]);
    assert next[|ClassPrefix(h.dstPort, h.dstChannel)|..] == path;
  }

  lemma Nested(h: Hop, rest: seq<Hop>, hops: seq<Hop>)
    requires hops == [h] + rest
    ensures hops + ReverseAll(hops) == [h] + ((rest + ReverseAll(rest)) + [Reverse(h)])
  {
    assert hops[0] == h && hops[1..] == rest;
  }

  lemma FirstHop(path: Text, h: Hop)
    ensures PathAfterAll(path, [h]) == PathAfter(path, h)
  {
    assert [h][1..] == [];
  }

  /** Going out by a hop and coming back by it, around a journey that returns to where it started. */
  lemma AroundHop(path: Text, h: Hop, inner: seq<Hop>)
    requires Outward(path, [h]) && PathAfterAll(PathAfter(path, h), inner) == PathAfter(path, h)
    ensures PathAfterAll(path, [h] + (inner + [Reverse(h)])) == path
  {
    FirstHop(path, h);
    PathAfterConcat(path, [h], inner + [Reverse(h)]);
    PathAfterConcat(PathAfter(path, h), inner, [Reverse(h)]);
    BackOneHop(path, h);
  }

  lemma OutwardFirst(path: Text, hops: seq<Hop>)
    requires hops != [] && Outward(path, hops)
    ensures Outward(path, [hops[0]]) && Outward(PathAfter(path, hops[0]), hops[1..])
  {
    assert [hops[0]][1..] == [];
  }

  lemma {:induction false} ComesBack(path: Text, hops: seq<Hop>)
    requires Outward(path, hops)
    ensures PathAfterAll(path, hops + ReverseAll(hops)) == path
    decreases |hops|
  {
    if hops == [] {
      assert hops + ReverseAll(hops) == [];
    } else {
      var h, rest := hops[0], hops[1..];
      OutwardFirst(path, hops);
      ComesBack(PathAfter(path, h), rest);
      AroundHop(path, h, rest + ReverseAll(rest));
      Nested(h, rest, hops);
    }
  }

  /** An outward journey followed by the reverse hops ends at the starting class. */
  lemma ThereAndBack(sha: Text -> Digest, path: Text, hops: seq<Hop>)
    requires Outward(path, hops)
    ensures PathAfterAll(path, hops + ReverseAll(hops)) == path
    ensures ClassId(sha, PathAfterAll(path, hops + ReverseAll(hops))) == ClassId(sha, path)
  {
    ComesBack(path, hops);
  }
}

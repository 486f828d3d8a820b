/** The byte keys under which tokens and owners are stored, and what a prefix scan of them finds. */
module Keys {
  import opened Bytes
  import opened ClassTraces
  import opened NftStore

  const PREFIX_NFT: byte := 0x01
  const PREFIX_OWNERS: byte := 0x02

  const MIN_DENOM_LEN: nat := 3
  const MAX_DENOM_LEN: nat := 64
  const IBC_DENOM_LEN: nat := 68
  const MAX_TOKEN_URI_LEN: nat := 256

  /** The native id that is a voucher prefix without its slash. */
  const IBC: Text := [0x69, 0x62, 0x63]

  function KeyNft(k: Key): Text {
    [PREFIX_NFT, SLASH] +
    (if |k.denom| > 0 then k.denom + [SLASH] else []) +
    (if |k.denom| > 0 && |k.token| > 0 then k.token else [])
  }

  function KeyOwner(show: Address -> Text, o: OwnerKey): Text {
    [PREFIX_OWNERS, SLASH] + show(o.owner) + [SLASH] +
    (if |o.key.denom| > 0 then o.key.denom + [SLASH] else []) +
    (if |o.key.denom| > 0 && |o.key.token| > 0 then o.key.token else [])
  }

  /** The position of the first slash. */
  function Index(s: Text): (r: Option<nat>)
    ensures r.Some? ==> r.value < |s| && s[r.value] == SLASH && SlashFree(s[..r.value])
    ensures r.None? ==> SlashFree(s)
  {
    if s == [] then None
    else if s[0] == SLASH then Some(0)
    else
      match Index(s[1..])
      case None => None
      case Some(i) => Some(i + 1)
  }

  lemma {:induction false} IndexIs(a: Text, b: Text)
    requires SlashFree(a)
    ensures Index(a) == None && Index(a + [SLASH] + b) == Some(|a|)
  {
    var s := a + [SLASH] + b;
    if a != [] {
      assert s[1..] == a[1..] + [SLASH] + b;
      IndexIs(a[1..], b);
    }
  }

  function SplitKeyDenom(key: Text): Option<Key>
  {
    if HasPrefix(key, IBC_PREFIX) then
      var rest := key[|IBC_PREFIX|..];
      match Index(rest)
      case None => None
      case Some(i) =>
        if i != IBC_DENOM_LEN - |IBC_PREFIX| then None
        else Some(Key(IBC_PREFIX + rest[..i], rest[i + 1..]))
    else
      match Index(key)
      case None => None
      case Some(i) => Some(Key(key[..i], key[i + 1..]))
  }

  // ---- admissible ids --------------------------------------------------------------------------------

  predicate AlphaNumeric(s: Text) {
    forall b :: b in s ==> 0x61 <= b <= 0x7A || 0x30 <= b <= 0x39
  }

  /** Lower-case letters and digits, the first one a letter: the rule for native denom ids and for token ids. */
  predicate ValidId(s: Text) {
    MIN_DENOM_LEN <= |s| <= MAX_DENOM_LEN && 0x61 <= s[0] <= 0x7A && AlphaNumeric(s)
  }

  /** The id of a voucher class. */
  predicate VoucherId(s: Text) {
    HasPrefix(s, IBC_PREFIX) && |s| == IBC_DENOM_LEN && SlashFree(s[|IBC_PREFIX|..])
  }

  /** Keys that messages and packets let into the store: token ids of vouchers are another chain's business. */
  predicate Admissible(k: Key) {
    (ValidId(k.denom) && ValidId(k.token)) || VoucherId(k.denom)
  }

  /** The rule, letter by letter. */
  lemma IdAlphabet(s: Text)
    ensures ValidId(s) <==>
      && 3 <= |s| <= 64 && 'a' as int <= s[0] <= 'z' as int
      && forall i :: 0 <= i < |s| ==> 'a' as int <= s[i] <= 'z' as int || '0' as int <= s[i] <= '9' as int
  {
    if ValidId(s) {
      forall i | 0 <= i < |s|
        ensures 'a' as int <= s[i] <= 'z' as int || '0' as int <= s[i] <= '9' as int
      {
        assert s[i] in s;
      }
    }
  }

  /** The keys of a token and of its owner, part by part. */
  lemma KeyLayout(show: Address -> Text, o: OwnerKey)
    requires o.key.denom != []
    ensures KeyNft(o.key) == [0x01] + Ascii("/") + o.key.denom + Ascii("/") + o.key.token
    ensures KeyOwner(show, o) ==
      [0x02] + Ascii("/") + show(o.owner) + Ascii("/") + o.key.denom + Ascii("/") + o.key.token
  {
    var slash := Ascii("/");
    assert slash == [SLASH] && [PREFIX_NFT, SLASH] == [0x01] + slash && [PREFIX_OWNERS, SLASH] == [0x02] + slash;
  }

  lemma ValidIdSlashFree(s: Text)
    requires ValidId(s)
    ensures SlashFree(s) && s != []
  {
  }

  // ---- round trips -------------------------------------------------------------------------------------

  lemma PrefixOfKey(d: Text, t: Text)
    requires SlashFree(d)
    ensures HasPrefix(d + [SLASH] + t, IBC_PREFIX) <==> d == IBC
  {
    var s := d + [SLASH] + t;
    assert IBC + [SLASH] == IBC_PREFIX;
    if HasPrefix(s, IBC_PREFIX) {
      FirstSlash(d, s, IBC);
    }
  }

  /** A native class other than ibc splits back; ibc never does. */
  lemma SplitNative(d: Text, t: Text)
    requires SlashFree(d)
    ensures SplitKeyDenom(d + [SLASH] + t) == Some(Key(d, t)) <==> d != IBC
  {
    var s := d + [SLASH] + t;
    PrefixOfKey(d, t);
    IndexIs(d, t);
    assert s[..|d|] == d && s[|d| + 1..] == t;
    if d == IBC {
      var r := SplitKeyDenom(s);
      assert r.Some? ==> |r.value.denom| >= |IBC_PREFIX|;
    }
  }

  /** A voucher class splits back exactly when its hash part has the length of a digest's text. */
  lemma SplitVoucher(h: Text, t: Text)
    requires SlashFree(h)
    ensures SplitKeyDenom(IBC_PREFIX + h + [SLASH] + t) == Some(Key(IBC_PREFIX + h, t)) <==> |h| == 64
  {
    var s := IBC_PREFIX + h + [SLASH] + t;
    assert s[|IBC_PREFIX|..] == h + [SLASH] + t;
    IndexIs(h, t);
    var rest := h + [SLASH] + t;
    assert rest[..|h|] == h && rest[|h| + 1..] == t;
  }

  /** Splitting a token's key gives the key back exactly when its class is not the native class ibc. */
  lemma SplitAdmissible(k: Key)
    requires Admissible(k)
    ensures SplitKeyDenom(KeyNft(k)[2..]) == Some(k) <==> k.denom != IBC
  {
    assert k.denom != [];
    assert KeyNft(k)[2..] == k.denom + [SLASH] + k.token;
    if VoucherId(k.denom) {
      var h := k.denom[|IBC_PREFIX|..];
      assert k.denom == IBC_PREFIX + h;
      SplitVoucher(h, k.token);
    } else {
      ValidIdSlashFree(k.denom);
      SplitNative(k.denom, k.token);
    }
  }

  lemma SplitParts(key: Text)
    requires SplitKeyDenom(key).Some?
    ensures var k := SplitKeyDenom(key).value; key == k.denom + [SLASH] + k.token && Splittable(k.denom)
  {
    if HasPrefix(key, IBC_PREFIX) {
      var rest := key[|IBC_PREFIX|..];
      var i := Index(rest).value;
      var h := rest[..i];
      assert (IBC_PREFIX + h)[|IBC_PREFIX|..] == h;
      assert rest == h + [SLASH] + rest[i + 1..];
      assert key == IBC_PREFIX + rest;
    } else {
      var i := Index(key).value;
      assert key == key[..i] + [SLASH] + key[i + 1..];
      PrefixOfKey(key[..i], key[i + 1..]);
    }
  }

  /** A class whose keys split: a voucher class, or a native one other than ibc. */
  predicate Splittable(denom: Text) {
    VoucherId(denom) || (SlashFree(denom) && denom != IBC)
  }

  /** Splitting finds exactly the class and the token that the key is made of, and fails on every other key. */
  lemma SplitExactly(key: Text, k: Key)
    ensures SplitKeyDenom(key) == Some(k) <==> key == k.denom + [SLASH] + k.token && Splittable(k.denom)
  {
    if SplitKeyDenom(key).Some? {
      SplitParts(key);
    }
    if key == k.denom + [SLASH] + k.token && Splittable(k.denom) {
      if VoucherId(k.denom) {
        var h := k.denom[|IBC_PREFIX|..];
        assert k.denom == IBC_PREFIX + h;
        SplitVoucher(h, k.token);
      } else {
        SplitNative(k.denom, k.token);
      }
    }
  }

  /** Splits the address, the class and the token off an owner's key. */
  function SplitKeyOwner(read: Text -> Option<Address>, key: Text): Option<OwnerKey>
    requires |key| >= 2
  {
    var rest := key[2..];
    match Index(rest)
    case None => None
    case Some(i) =>
      match (read(rest[..i]), SplitKeyDenom(rest[i + 1..]))
      case (Some(owner), Some(k)) => Some(OwnerKey(owner, k))
      case _ => None
  }

  lemma SplitAfterAddress(read: Text -> Option<Address>, key: Text, a: Text, tail: Text, owner: Address)
    requires |key| >= 2 && key[2..] == a + [SLASH] + tail && SlashFree(a) && read(a) == Some(owner)
    ensures SplitKeyOwner(read, key) ==
      match SplitKeyDenom(tail) case Some(k) => Some(OwnerKey(owner, k)) case None => None
  {
    IndexIs(a, tail);
    var rest := a + [SLASH] + tail;
    assert rest[..|a|] == a && rest[|a| + 1..] == tail;
  }

  lemma AfterPrefix(p: Text, a: Text, tail: Text)
    requires |p| == 2
    ensures (p + a + [SLASH] + tail)[2..] == a + [SLASH] + tail
  {
  }

  lemma OwnerKeyTail(show: Address -> Text, o: OwnerKey)
    requires o.key.denom != []
    ensures KeyOwner(show, o)[2..] == show(o.owner) + [SLASH] + KeyNft(o.key)[2..]
  {
    var tail := KeyNft(o.key)[2..];
    assert KeyOwner(show, o) == [PREFIX_OWNERS, SLASH] + show(o.owner) + [SLASH] + tail;
    AfterPrefix([PREFIX_OWNERS, SLASH], show(o.owner), tail);
  }

  /** The same for the key of an owner, whose address text holds no slash. */
  lemma SplitOwner(show: Address -> Text, read: Text -> Option<Address>, o: OwnerKey)
    requires Admissible(o.key) && SlashFree(show(o.owner)) && read(show(o.owner)) == Some(o.owner)
    ensures SplitKeyOwner(read, KeyOwner(show, o)) == Some(o) <==> o.key.denom != IBC
  {
    OwnerKeyTail(show, o);
    SplitAfterAddress(read, KeyOwner(show, o), show(o.owner), KeyNft(o.key)[2..], o.owner);
    SplitAdmissible(o.key);
  }

  // ---- one key for each token --------------------------------------------------------------------------

  /** A prefix scan of the class finds the token. */
  predicate Scanned(denom: Text, k: Key) {
    HasPrefix(KeyNft(k), KeyNft(Key(denom, [])))
  }

  lemma ScannedIs(denom: Text, k: Key)
    requires denom != [] && Admissible(k)
    ensures Scanned(denom, k) <==> HasPrefix(k.denom + [SLASH] + k.token, denom + [SLASH])
  {
    var a, b := denom + [SLASH], k.denom + [SLASH] + k.token;
    var p: Text := [PREFIX_NFT, SLASH];
    assert KeyNft(Key(denom, [])) == p + a;
    assert KeyNft(k) == p + b;
    assert |b| >= |a| ==> (p + b)[..|p + a|] == p + b[..|a|];
    assert (p + a)[2..] == a && (p + b)[2..] == b;
    assert p + a <= p + b ==> (p + b)[..|p + a|][2..] == b[..|a|];
  }

  lemma VoucherPrefix(d: Text, rest: Text, d': Text)
    requires VoucherId(d) && VoucherId(d') && HasPrefix(d + [SLASH] + rest, d' + [SLASH])
    ensures d == d'
  {
    var s := d + [SLASH] + rest;
    assert d == s[..|d|] && d' == (d' + [SLASH])[..|d'|] == s[..|d'|];
  }

  lemma NativePrefix(d: Text, rest: Text, d': Text)
    requires SlashFree(d) && SlashFree(d') && HasPrefix(d + [SLASH] + rest, d' + [SLASH])
    ensures d == d'
  {
    FirstSlash(d, d + [SLASH] + rest, d');
  }

  lemma MixedPrefix(d: Text, rest: Text, d': Text)
    requires VoucherId(d) && SlashFree(d')
    ensures HasPrefix(d + [SLASH] + rest, d' + [SLASH]) <==> d' == IBC
  {
    var s := d + [SLASH] + rest;
    assert s[..4] == d[..4] == IBC_PREFIX == IBC + [SLASH];
    if HasPrefix(s, d' + [SLASH]) {
      FirstSlash(IBC, s, d');
    }
  }

  /** A native token's id holds no slash, so no voucher class can be a prefix of its key. */
  lemma NotUnderVoucher(k: Key, d: Text)
    requires ValidId(k.denom) && ValidId(k.token) && VoucherId(d)
    ensures !HasPrefix(k.denom + [SLASH] + k.token, d + [SLASH])
  {
    ValidIdSlashFree(k.denom);
    ValidIdSlashFree(k.token);
    var s := k.denom + [SLASH] + k.token;
    var p := d + [SLASH];
    assert d[3] == SLASH == p[3] == p[|d|];
    if |s| > |d| {
      assert HasPrefix(s, p) ==> s[3] == p[3] && s[|d|] == p[|d|];
      SecondPart(k.denom, k.token, 3);
      SecondPart(k.denom, k.token, |d|);
    }
  }

  lemma SecondPart(a: Text, b: Text, i: nat)
    requires SlashFree(a) && SlashFree(b) && i < |a + [SLASH] + b|
    ensures (a + [SLASH] + b)[i] == SLASH <==> i == |a|
  {
  }

  /** A scan of a class finds its own tokens, and for the native class ibc those of every voucher class too. */
  lemma ScanFinds(denom: Text, k: Key)
    requires Admissible(k) && (ValidId(denom) || VoucherId(denom))
    ensures Scanned(denom, k) <==> denom == k.denom || (denom == IBC && VoucherId(k.denom))
  {
    ScannedIs(denom, k);
    var s := k.denom + [SLASH] + k.token;
    if VoucherId(denom) {
      if VoucherId(k.denom) {
        if HasPrefix(s, denom + [SLASH]) {
          VoucherPrefix(k.denom, k.token, denom);
        }
      } else {
        NotUnderVoucher(k, denom);
      }
    } else {
      ValidIdSlashFree(denom);
      if VoucherId(k.denom) {
        MixedPrefix(k.denom, k.token, denom);
      } else {
        ValidIdSlashFree(k.denom);
        if HasPrefix(s, denom + [SLASH]) {
          NativePrefix(k.denom, k.token, denom);
        }
      }
    }
  }

  /** Different tokens have different keys. */
  lemma KeysInjective(k: Key, k': Key)
    requires Admissible(k) && Admissible(k') && KeyNft(k) == KeyNft(k')
    ensures k == k'
  {
    assert KeyNft(k) == KeyNft(Key(k.denom, [])) + k.token;
    assert KeyNft(k') == KeyNft(Key(k'.denom, [])) + k'.token;
    ScanFinds(k.denom, k');
    ScanFinds(k'.denom, k);
    assert k.denom == k'.denom;
    var p := KeyNft(Key(k.denom, []));
    assert (p + k.token)[|p|..] == k.token && (p + k'.token)[|p|..] == k'.token;
  }
}

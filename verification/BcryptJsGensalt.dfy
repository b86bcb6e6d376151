/** gensalt of bCrypt.js: a setting from the numbers of isaac, and what both sides make of it. */
module BcryptJsGensalt {
  import opened Words
  import opened Blowfish
  import opened BcryptCodec
  import opened Bcrypt
  import opened BcryptProperties
  import opened BcryptJsText
  import opened BcryptJsHash
  import opened BcryptAgreement
  import Isaac

  /** `Math.abs(x) & 0xff` for the signed reading of a word. */
  function LowOfAbs(w: Word): Byte {
    ((if w >= 0x8000_0000 then 0 - w else w) & 0xff) as Byte
  }

  /** Without the detour over words: the number below 2^31 as it is, the others as 2^32 less and then without a sign. */
  lemma LowOfAbsValue(w: Word)
    ensures LowOfAbs(w) as Word == (if w < 0x8000_0000 then w else 0xffff_ffff - w + 1) % 256
  {
  }

  /** The word that rand returns in its `k`-th call from now on. */
  function Drawn(d: Isaac.Supply, k: nat): Word {
    var s := Isaac.Draws(d, k);
    if 0 <= s.gnt < |s.r| then s.r[s.gnt] else 0
  }

  /** The bytes of a salt: sixteen calls of rand. */
  function SaltBytes(d: Isaac.Supply): (b: seq<Byte>)
    ensures |b| == 16
  {
    seq(16, i requires 0 <= i < 16 => LowOfAbs(Drawn(d, i + 1)))
  }

  /** The cost that is written: 10 unless the argument is from 4 to 31. */
  function CostFor(rounds: int): (n: nat)
    ensures 4 <= n <= 31
    ensures 4 <= rounds <= 31 ==> n == rounds
  {
    if rounds < 4 || rounds > 31 then 10 else rounds
  }

  /** The setting that gensalt writes, as bytes. */
  function BrowserSetting(rounds: int, d: Isaac.Supply): seq<Byte> {
    SaltHeader(CostFor(rounds)) + Encode(SaltBytes(d))
  }

  /** gensalt. */
  method GenSalt(rounds: int, isaac: Isaac.Generator) returns (text: JsString)
    requires isaac.Valid() && 0 <= isaac.gnt <= 256
    modifies isaac, isaac.m, isaac.r
    ensures text == Widen(BrowserSetting(rounds, Isaac.Supply(old(isaac.Value()), old(isaac.r[..]), old(isaac.gnt))))
    ensures 0 <= isaac.gnt <= 256
  {
    hide *;
    ghost var d := Isaac.Supply(isaac.Value(), isaac.r[..], isaac.gnt);
    var count := rounds;
    if count < 4 || count > 31 {
      count := 10;
    }
    var s1 := DrawSalt(isaac);
    CostIs(rounds, count);
    var salt64 := EncodeBase64(s1, 16);
    assert s1[..16] == s1;
    var head: JsString := [0x24, 0x32, 0x61, 0x24] + RoundsText(Some(count)) + [0x24];
    HeaderText(count);
    WidenAppend(SaltHeader(count), Encode(s1));
    SettingIs(rounds, d);
    text := head + salt64.value;
  }

  /** The sixteen numbers of a salt, as encode_base64 masks them. */
  method DrawSalt(isaac: Isaac.Generator) returns (s1: seq<Byte>)
    requires isaac.Valid() && 0 <= isaac.gnt <= 256
    modifies isaac, isaac.m, isaac.r
    ensures s1 == SaltBytes(Isaac.Supply(old(isaac.Value()), old(isaac.r[..]), old(isaac.gnt)))
    ensures 0 <= isaac.gnt <= 256
  {
    assert isaac.r.Length == 256;
    hide *;
    ghost var d := Isaac.Supply(isaac.Value(), isaac.r[..], isaac.gnt);
    NoDraws(d);
    s1 := [];
    for r := 0 to 16
      invariant isaac.Valid() && 0 <= isaac.gnt <= 256
      invariant Isaac.Supply(isaac.Value(), isaac.r[..], isaac.gnt) == Isaac.Draws(d, r)
      invariant |s1| == r && forall k :: 0 <= k < r ==> s1[k] == LowOfAbs(Drawn(d, k + 1))
    {
      var v := isaac.Rand();
      OneMoreDraw(d, r);
      DrawnIs(d, r + 1);
      s1 := s1 + [LowOfAbs(v)];
    }
    SaltBytesAre(d, s1);
  }

  lemma HeaderText(n: nat)
    requires n <= 31
    ensures [0x24, 0x32, 0x61, 0x24] + RoundsText(Some(n)) + [0x24] == Widen(SaltHeader(n))
  {
    hide DigitChar;
  }

  lemma SettingIs(rounds: int, d: Isaac.Supply)
    ensures BrowserSetting(rounds, d) == SaltHeader(CostFor(rounds)) + Encode(SaltBytes(d))
  {
  }

  lemma CostIs(rounds: int, count: int)
    requires count == if rounds < 4 || rounds > 31 then 10 else rounds
    ensures CostFor(rounds) == count
  {
  }

  lemma NoDraws(d: Isaac.Supply)
    ensures Isaac.Draws(d, 0) == d
  {
  }

  lemma OneMoreDraw(d: Isaac.Supply, n: nat)
    ensures Isaac.Draws(d, n + 1) == Isaac.Draw(Isaac.Draws(d, n))
  {
    hide Isaac.Draw;
  }

  lemma DrawnIs(d: Isaac.Supply, k: nat)
    ensures var s := Isaac.Draws(d, k); 0 <= s.gnt < |s.r| ==> Drawn(d, k) == s.r[s.gnt]
  {
    hide Isaac.Draws;
  }

  lemma SaltBytesAre(d: Isaac.Supply, b: seq<Byte>)
    requires |b| == 16 && forall k :: 0 <= k < 16 ==> b[k] == LowOfAbs(Drawn(d, k + 1))
    ensures b == SaltBytes(d)
  {
    hide LowOfAbs, Drawn;
  }

  /** Every setting that gensalt makes is taken by both sides, whatever isaac gives; its salt is the sixteen bytes and
      its cost the argument, or 10. */
  lemma BrowserSettingIsCommon(rounds: int, d: Isaac.Supply)
    ensures var s := BrowserSetting(rounds, d);
            && CommonSetting(s) && Cost(s) == (if 4 <= rounds <= 31 then rounds else 10)
            && Decode(s[7..], 16) == Some(SaltBytes(d))
  {
    var n, b := CostFor(rounds), SaltBytes(d);
    GensaltMakes(n, b);
    GeneratedSalt(n, b, 16, 30);
    SixteenRounds(n);
    CostIs(rounds, if rounds < 4 || rounds > 31 then 10 else rounds);
    hide GoodHeader, Cost, Decode, OneShifted, Encode, SaltHeader, SaltBytes, CostFor, Gensalt, Pow2;
    assert b[..16] == b;
  }

  lemma GensaltMakes(n: nat, b: seq<Byte>)
    requires 4 <= n <= 31 && |b| == 16
    ensures Gensalt(n, b, 16, 30) == Hash(SaltHeader(n) + Encode(b))
  {
    hide SaltHeader, Encode;
    assert b[..16] == b;
  }

  /** A password hashed in the browser under a setting made there is what the server makes of it, but for cost 31. */
  lemma BrowserHashIsServers(initial: Boxes, password: seq<Byte>, rounds: int, d: Isaac.Supply)
    requires rounds != 31 && 0 !in password
    ensures var s := BrowserSetting(rounds, d);
            && Crypt(initial, password, s, 61, 16).Hash?
            && HashPw(initial, Widen(password), Widen(s)) == Called(Widen(Crypt(initial, password, s, 61, 16).text))
  {
    hide *;
    CostIs(rounds, if rounds < 4 || rounds > 31 then 10 else rounds);
    BrowserSettingIsCommon(rounds, d);
    HashPwIsBfCrypt(initial, password, BrowserSetting(rounds, d), 61);
  }
}

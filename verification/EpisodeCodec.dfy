/** The stored form of an episode key, `SxE` in decimal, and how it is read back. */
module EpisodeCodec {
  import opened PyText
  import opened EpisodeKeys

  predicate IsDigit(c: char) { '0' <= c <= '9' }

  predicate AllDigits(s: string) { forall c :: c in s ==> IsDigit(c) }

  function PrintNat(n: nat): (r: string)
    ensures r != [] && AllDigits(r)
  {
    var digit := ['0' + (n % 10) as char];
    if n < 10 then digit else PrintNat(n / 10) + digit
  }

  function PrintInt(n: int): string { if n < 0 then "-" + PrintNat(-n) else PrintNat(n) }

  function ParseNat(s: string): nat
    requires AllDigits(s)
  {
    if s == [] then 0
    else
      assert s[|s| - 1] in s;
      ParseNat(s[..|s| - 1]) * 10 + (s[|s| - 1] as int - '0' as int)
  }

  /** `_episode_key`. */
  function EpisodeKeyOf(season: int, episode: int): Option<EpisodeKey> {
    if episode <= 0 then None else Some((OrOne(season), episode))
  }

  /** `json_episode_key`. */
  function Encode(k: EpisodeKey): string { PrintInt(k.0) + "x" + PrintInt(k.1) }

  function DigitsEnd(s: string, i: nat): (e: nat)
    requires i <= |s|
    ensures i <= e <= |s| && AllDigits(s[i..e]) && (e < |s| ==> !IsDigit(s[e]))
    decreases |s| - i
  {
    if i < |s| && IsDigit(s[i]) then
      assert s[i..DigitsEnd(s, i + 1)] == [s[i]] + s[i + 1..DigitsEnd(s, i + 1)];
      DigitsEnd(s, i + 1)
    else i
  }

  /** `_episode_key_from_json` on a stored string. */
  function Decode(text: string): Option<EpisodeKey> {
    var s := Strip(text);
    var m := DigitsEnd(s, 0);
    if 0 < m < |s| - 1 && s[m] == 'x' && DigitsEnd(s, m + 1) == |s|
    then EpisodeKeyOf(ParseNat(s[0..m]), ParseNat(s[m + 1..|s|]))
    else None
  }

  /** `_episode_keys_from_json` on a stored list. */
  function DecodeAll(items: seq<string>): set<EpisodeKey> {
    set i | 0 <= i < |items| && Decode(items[i]).Some? :: Decode(items[i]).value
  }

  function EncodeAll(keys: seq<EpisodeKey>): (r: seq<string>)
    ensures |r| == |keys| && forall i :: 0 <= i < |keys| ==> r[i] == Encode(keys[i])
  {
    if keys == [] then [] else [Encode(keys[0])] + EncodeAll(keys[1..])
  }

  lemma {:induction false} ParsePrintNat(n: nat)
    ensures ParseNat(PrintNat(n)) == n
  {
    var r := PrintNat(n);
    if n >= 10 {
      ParsePrintNat(n / 10);
      assert r[..|r| - 1] == PrintNat(n / 10);
    }
  }

  lemma {:induction false} DigitsEndAt(s: string, i: nat, e: nat)
    requires i <= e <= |s| && AllDigits(s[i..e]) && (e < |s| ==> !IsDigit(s[e]))
    ensures DigitsEnd(s, i) == e
    decreases e - i
  {
    if i < e {
      assert s[i] in s[i..e];
      forall c | c in s[i + 1..e] ensures c in s[i..e] {}
      DigitsEndAt(s, i + 1, e);
    }
  }

  lemma DecodeDigits(a: string, b: string)
    requires a != [] && b != [] && AllDigits(a) && AllDigits(b)
    ensures Decode(a + "x" + b) == EpisodeKeyOf(ParseNat(a), ParseNat(b))
  {
    var s := a + "x" + b;
    assert a[0] in a && s[0] == a[0] && b[|b| - 1] in b && s[|s| - 1] == b[|b| - 1];
    StripTight(s);
    assert s[0..|a|] == a && s[|a| + 1..|s|] == b;
    DigitsEndAt(s, 0, |a|);
    DigitsEndAt(s, |a| + 1, |s|);
  }

  /** Two numbers with an `x` between them. */
  predicate Spelled(s: string, a: string, b: string) {
    a != [] && b != [] && AllDigits(a) && AllDigits(b) && s == a + "x" + b
  }

  lemma SpelledBy(text: string) returns (a: string, b: string)
    requires Decode(text).Some?
    ensures Spelled(Strip(text), a, b) && Decode(text) == EpisodeKeyOf(ParseNat(a), ParseNat(b))
  {
    var s := Strip(text);
    hide Strip, IsDigit;
    var m := DigitsEnd(s, 0);
    a, b := s[0..m], s[m + 1..|s|];
    assert s == a + "x" + b;
  }

  lemma SpelledRead(text: string, a: string, b: string)
    requires Spelled(Strip(text), a, b)
    ensures Decode(text) == EpisodeKeyOf(ParseNat(a), ParseNat(b))
  {
    StripIdempotent(text);
    hide Strip, ParseNat, DigitsEnd, IsDigit;
    DecodeDigits(a, b);
  }

  /** What is read is two numbers around an `x`, between blanks; season 0 counts as 1, episode 0 as nothing. */
  lemma ReadExactly(text: string, k: EpisodeKey)
    ensures Decode(text) == Some(k) <==>
              exists a, b :: Spelled(Strip(text), a, b) && ParseNat(b) >= 1
                             && k == (if ParseNat(a) == 0 then 1 else ParseNat(a), ParseNat(b))
  {
    hide Decode, Strip, ParseNat, IsDigit;
    if Decode(text) == Some(k) {
      var a, b := SpelledBy(text);
      assert Spelled(Strip(text), a, b);
    }
    if a, b :| Spelled(Strip(text), a, b) && ParseNat(b) >= 1
               && k == (if ParseNat(a) == 0 then 1 else ParseNat(a), ParseNat(b))
    {
      SpelledRead(text, a, b);
    }
  }

  lemma PrintIntEnds(n: int)
    ensures PrintInt(n) != [] && (PrintInt(n)[0] == '-' <==> n < 0)
    ensures IsDigit(PrintInt(n)[|PrintInt(n)| - 1]) && (n >= 0 ==> AllDigits(PrintInt(n)))
  {
    var r := PrintNat(if n < 0 then -n else n);
    assert r[0] in r && r[|r| - 1] in r;
  }

  lemma NegativeUnread(k: EpisodeKey)
    requires k.0 < 0 || k.1 < 0
    ensures Decode(Encode(k)) == None
  {
    var a, b := PrintInt(k.0), PrintInt(k.1);
    var s := a + "x" + b;
    PrintIntEnds(k.0);
    PrintIntEnds(k.1);
    hide PrintInt;
    assert s[0] == a[0] && s[|s| - 1] == b[|b| - 1];
    assert !IsSpace(s[0]) by { assert a[0] in a; }
    StripTight(s);
    hide Strip;
    if k.0 < 0 {
      DigitsEndAt(s, 0, 0);
    } else {
      assert s[0..|a|] == a;
      assert s[|a|] == 'x' && s[|a| + 1] == '-';
      DigitsEndAt(s, 0, |a|);
      DigitsEndAt(s, |a| + 1, |a| + 1);
    }
  }

  /** A key survives being stored exactly when its season and episode are positive. */
  lemma StoredKeySurvives(k: EpisodeKey)
    ensures Decode(Encode(k)) == Some(k) <==> k.0 >= 1 && k.1 >= 1
  {
    if k.0 < 0 || k.1 < 0 {
      NegativeUnread(k);
    } else {
      DecodeDigits(PrintNat(k.0), PrintNat(k.1));
      ParsePrintNat(k.0);
      ParsePrintNat(k.1);
    }
  }

  /** Whatever is read from a stored string is stored and read back unchanged. */
  lemma ReadIsStable(text: string)
    requires Decode(text).Some?
    ensures Decode(Encode(Decode(text).value)) == Decode(text)
  {
    ReadIsPositive(text);
    hide Decode, Encode;
    StoredKeySurvives(Decode(text).value);
  }

  lemma ReadIsPositive(text: string)
    requires Decode(text).Some?
    ensures Decode(text).value.0 >= 1 && Decode(text).value.1 >= 1
  {
    hide Strip, ParseNat, DigitsEnd, IsDigit;
  }

  /** A stored list, in any order and with repeats, is read back as its set of keys exactly when all are positive. */
  lemma StoredSetSurvives(keys: set<EpisodeKey>, listed: seq<EpisodeKey>)
    requires forall k :: k in listed <==> k in keys
    ensures DecodeAll(EncodeAll(listed)) == keys <==> (forall k :: k in keys ==> k.0 >= 1 && k.1 >= 1)
  {
    var items := EncodeAll(listed);
    hide Encode, Decode, EncodeAll;
    forall i | 0 <= i < |items| && Decode(items[i]).Some?
      ensures Decode(items[i]).value.0 >= 1 && Decode(items[i]).value.1 >= 1
    {
      ReadIsPositive(items[i]);
    }
    if forall k :: k in keys ==> k.0 >= 1 && k.1 >= 1 {
      forall i | 0 <= i < |items| ensures Decode(items[i]) == Some(listed[i]) {
        assert listed[i] in keys;
        StoredKeySurvives(listed[i]);
      }
      forall k | k in keys ensures k in DecodeAll(items) {
        var i :| 0 <= i < |listed| && listed[i] == k;
        assert Decode(items[i]).value == k;
      }
    }
  }
}

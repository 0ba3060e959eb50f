/** What the link patterns match, told by the characters of the text: share links in every spelling,
    magnet hashes, and the kinds of keys that follow. */
module LinkText {
  import opened PyText
  import opened ShareLinks

  // -------------------------------------------------------------- characters

  /** `c` is the small letter or sign `d`, ignoring case as the patterns do. */
  predicate LetterIs(c: char, d: char) {
    || c == d
    || ('A' <= c <= 'Z' && d as int == c as int + 32)
    || (d == 's' && c == '\U{017F}') || (d == 'k' && c == '\U{212A}')
    || (d == 'i' && (c == '\U{0130}' || c == '\U{0131}'))
  }

  /** A character of `[a-z0-9]`, ignoring case. */
  predicate HashChar(c: char) {
    || '0' <= c <= '9' || 'a' <= c <= 'z' || 'A' <= c <= 'Z'
    || c == '\U{017F}' || c == '\U{212A}' || c == '\U{0130}' || c == '\U{0131}'
  }

  predicate CodeChar(c: char) { HashChar(c) || c == '_' || c == '-' }

  predicate TextAt(s: string, i: nat, word: string) {
    i + |word| <= |s| && forall j {:trigger word[j]} :: 0 <= j < |word| ==> LetterIs(s[i + j], word[j])
  }

  /** Small letters and signs of ASCII. */
  predicate Plain(word: string) { forall j :: 0 <= j < |word| ==> word[j] <= '\U{007F}' && !('A' <= word[j] <= 'Z') }

  lemma LetterExactly(c: char, d: char)
    requires d <= '\U{007F}' && !('A' <= d <= 'Z')
    ensures Fold(c) == d <==> LetterIs(c, d)
  {
  }

  lemma CharsExactly(c: char)
    ensures IsAlnum(c) <==> HashChar(c)
    ensures IsCodeChar(c) <==> CodeChar(c)
  {
  }

  lemma TextExactly(s: string, i: nat, word: string)
    requires Plain(word)
    ensures LitAt(s, i, word) <==> TextAt(s, i, word)
  {
    hide Fold, LetterIs;
    if i + |word| <= |s| {
      forall j | 0 <= j < |word| ensures Fold(s[i + j]) == word[j] <==> LetterIs(s[i + j], word[j]) {
        LetterExactly(s[i + j], word[j]);
      }
    }
  }

  // ------------------------------------------------------------------- heads

  predicate Scheme(w: string) { w == "" || w == "http://" || w == "https://" }
  predicate Www(w: string) { w == "" || w == "www." }
  predicate Host(w: string) { w == "115.com/s/" || w == "115cdn.com/s/" }

  /** One of the twelve heads of a share link stands at `i` and ends at `h`. */
  ghost predicate HeadAt(s: string, i: nat, h: nat) {
    exists a, b, c :: Scheme(a) && Www(b) && Host(c) && TextAt(s, i, a + b + c) && h == i + |a + b + c|
  }

  lemma ThreeParts(s: string, i: nat, a: string, b: string, c: string)
    ensures LitAt(s, i, a + b + c) <==> LitAt(s, i, a) && LitAt(s, i + |a|, b) && LitAt(s, i + |a| + |b|, c)
  {
    hide LitAt;
    LitConcat(s, i, a + b, c);
    LitConcat(s, i, a, b);
    assert |a + b| == |a| + |b|;
  }

  lemma CdnOrDot(s: string, k: nat)
    ensures !(LitAt(s, k, "cdn") && LitAt(s, k, ".com/s/"))
  {
    if LitAt(s, k, "cdn") && LitAt(s, k, ".com/s/") {
      LitChar(s, k, "cdn", 0);
      LitChar(s, k, ".com/s/", 0);
    }
  }

  lemma HostIs(s: string, i: nat, h: nat)
    ensures HostEnd(s, i) == Some(h) <==>
              || (LitAt(s, i, "115.com/s/") && h == i + 10) || (LitAt(s, i, "115cdn.com/s/") && h == i + 13)
  {
    hide LitAt;
    assert "115.com/s/" == "115" + ".com/s/" && "115cdn.com/s/" == "115" + ("cdn" + ".com/s/");
    LitConcat(s, i, "115", ".com/s/");
    LitConcat(s, i, "115", "cdn" + ".com/s/");
    LitConcat(s, i + 3, "cdn", ".com/s/");
    CdnOrDot(s, i + 3);
  }

  /** The first letters tell the parts of a head apart. */
  lemma PartsApart(s: string, i: nat)
    ensures LitAt(s, i, "http://") ==> !LitAt(s, i, "https://")
    ensures LitAt(s, i, "www.") || LitAt(s, i, "115.com/s/") || LitAt(s, i, "115cdn.com/s/") ==>
              !LitAt(s, i, "https://") && !LitAt(s, i, "http://")
    ensures LitAt(s, i, "115.com/s/") || LitAt(s, i, "115cdn.com/s/") ==> !LitAt(s, i, "www.")
  {
    if LitAt(s, i, "http://") { LitChar(s, i, "http://", 4); NoLit(s, i, "https://", 4); }
    if LitAt(s, i, "www.") { LitChar(s, i, "www.", 0); }
    if LitAt(s, i, "115.com/s/") { LitChar(s, i, "115.com/s/", 0); }
    if LitAt(s, i, "115cdn.com/s/") { LitChar(s, i, "115cdn.com/s/", 0); }
    if LitAt(s, i, "www.") || LitAt(s, i, "115.com/s/") || LitAt(s, i, "115cdn.com/s/") {
      NoLit(s, i, "https://", 0);
      NoLit(s, i, "http://", 0);
    }
    if LitAt(s, i, "115.com/s/") || LitAt(s, i, "115cdn.com/s/") { NoLit(s, i, "www.", 0); }
  }

  /** Something that can follow a scheme stands there. */
  predicate AfterScheme(s: string, i: nat) {
    LitAt(s, i, "www.") || LitAt(s, i, "115.com/s/") || LitAt(s, i, "115cdn.com/s/")
  }

  lemma SchemeIs(s: string, i: nat, a: string)
    requires Scheme(a) && LitAt(s, i, a) && AfterScheme(s, i + |a|)
    ensures SchemeEnd(s, i) == i + |a|
  {
    PartsApart(s, i);
    PartsApart(s, i + |a|);
    hide LitAt;
  }

  lemma WwwIs(s: string, i: nat, b: string, c: string)
    requires Www(b) && Host(c) && LitAt(s, i, b) && LitAt(s, i + |b|, c)
    ensures WwwEnd(s, i) == i + |b| && AfterScheme(s, i)
  {
    PartsApart(s, i);
    hide LitAt;
  }

  lemma HeadParts(s: string, i: nat, a: string, b: string, c: string)
    requires Scheme(a) && Www(b) && Host(c) && LitAt(s, i, a) && LitAt(s, i + |a|, b) && LitAt(s, i + |a| + |b|, c)
    ensures HeadEnd(s, i) == Some(i + |a| + |b| + |c|)
  {
    WwwIs(s, i + |a|, b, c);
    SchemeIs(s, i, a);
    HostIs(s, i + |a| + |b|, i + |a| + |b| + |c|);
    hide LitAt, HostEnd, SchemeEnd, WwwEnd, AfterScheme;
  }

  lemma NothingAt(s: string, i: nat)
    requires i <= |s|
    ensures LitAt(s, i, "")
  {
  }

  lemma HeadSplit(s: string, i: nat, h: nat) returns (a: string, b: string, c: string)
    requires HeadEnd(s, i) == Some(h)
    ensures Scheme(a) && Www(b) && Host(c) && LitAt(s, i, a) && LitAt(s, i + |a|, b) && LitAt(s, i + |a| + |b|, c)
    ensures h == i + |a| + |b| + |c|
  {
    hide LitAt, HostEnd;
    a := if LitAt(s, i, "https://") then "https://" else if LitAt(s, i, "http://") then "http://" else "";
    b := if LitAt(s, i + |a|, "www.") then "www." else "";
    assert HostEnd(s, i + |a| + |b|) == Some(h);
    hide SchemeEnd, WwwEnd, HeadEnd;
    HostIs(s, i + |a| + |b|, h);
    c := if h == i + |a| + |b| + 10 then "115.com/s/" else "115cdn.com/s/";
    HostWithin(s, i + |a| + |b|, c);
    NothingAt(s, i);
    NothingAt(s, i + |a|);
  }

  lemma HostWithin(s: string, i: nat, c: string)
    requires LitAt(s, i, c)
    ensures i <= |s|
  {
  }

  /** The head pattern matches exactly these spellings. */
  lemma HeadExactly(s: string, i: nat, h: nat)
    ensures HeadEnd(s, i) == Some(h) <==> HeadAt(s, i, h)
  {
    if HeadEnd(s, i) == Some(h) {
      var a, b, c := HeadSplit(s, i, h);
      ThreeParts(s, i, a, b, c);
      PlainHead(a, b, c);
      TextExactly(s, i, a + b + c);
    }
    if HeadAt(s, i, h) {
      var a, b, c :| Scheme(a) && Www(b) && Host(c) && TextAt(s, i, a + b + c) && h == i + |a + b + c|;
      PlainHead(a, b, c);
      TextExactly(s, i, a + b + c);
      ThreeParts(s, i, a, b, c);
      HeadParts(s, i, a, b, c);
    }
  }

  lemma PlainJoin(p: string, q: string)
    requires Plain(p) && Plain(q)
    ensures Plain(p + q)
  {
    forall j | 0 <= j < |p + q| ensures (p + q)[j] <= '\U{007F}' && !('A' <= (p + q)[j] <= 'Z') {
      assert (p + q)[j] == if j < |p| then p[j] else q[j - |p|];
    }
  }

  lemma PlainHead(a: string, b: string, c: string)
    requires Scheme(a) && Www(b) && Host(c)
    ensures Plain(a + b + c)
  {
    assert Plain(a) && Plain(b) && Plain(c);
    hide *;
    PlainJoin(a, b);
    PlainJoin(a + b, c);
  }

  // -------------------------------------------------------------------- codes

  predicate Param(w: string) { w == "password=" || w == "pwd=" || w == "receive_code=" }

  /** One of the three names of a receive code stands at `i` with its equals sign, and the code begins at `v`. */
  ghost predicate ParamAt(s: string, i: nat, v: nat) {
    exists w :: Param(w) && TextAt(s, i, w) && v == i + |w|
  }

  lemma ParamsApart(s: string, i: nat)
    ensures LitAt(s, i, "password=") ==> !LitAt(s, i, "pwd=") && !LitAt(s, i, "receive_code=")
    ensures LitAt(s, i, "pwd=") ==> !LitAt(s, i, "receive_code=")
  {
    if LitAt(s, i, "password=") {
      LitChar(s, i, "password=", 0);
      LitChar(s, i, "password=", 1);
      NoLit(s, i, "pwd=", 1);
      NoLit(s, i, "receive_code=", 0);
    }
    if LitAt(s, i, "pwd=") {
      LitChar(s, i, "pwd=", 0);
      NoLit(s, i, "receive_code=", 0);
    }
  }

  lemma ParamExactly(s: string, i: nat, v: nat)
    ensures ParamEnd(s, i) == Some(v) <==> ParamAt(s, i, v)
  {
    ParamsApart(s, i);
    forall w | Param(w) ensures LitAt(s, i, w) <==> TextAt(s, i, w) {
      assert Plain(w);
      hide Plain, LitAt, TextAt;
      TextExactly(s, i, w);
    }
    hide LitAt, TextAt;
    assert Param("password=") && Param("pwd=") && Param("receive_code=");
  }

  /** A head at `i` whose share code begins at `h`. */
  ghost predicate ShareAt(s: string, i: nat, h: nat) { HeadAt(s, i, h) && h < |s| && CodeChar(s[h]) }

  lemma ShareEndExactly(s: string, i: nat)
    ensures ShareEnd(s, i).Some? <==> exists h: nat :: ShareAt(s, i, h)
  {
    if HeadEnd(s, i).Some? {
      var h := HeadEnd(s, i).value;
      HeadExactly(s, i, h);
      if h < |s| { CharsExactly(s[h]); }
      hide HeadEnd, ParamValue, HeadAt, IsCodeChar, CodeChar;
      assert ShareEnd(s, i).Some? ==> ShareAt(s, i, h);
    }
    forall h: nat | ShareAt(s, i, h) ensures HeadEnd(s, i) == Some(h) && ShareEnd(s, i).Some? {
      HeadExactly(s, i, h);
      CharsExactly(s[h]);
      hide HeadEnd, ParamValue, HeadAt, IsCodeChar, CodeChar;
    }
  }

  ghost predicate ShareIn(s: string) { exists i: nat, h: nat :: ShareAt(s, i, h) }

  /** The leftmost place where a share link stands. */
  ghost predicate FirstShare(s: string, i: nat, h: nat) {
    ShareAt(s, i, h) && forall k: nat, g: nat :: k < i ==> !ShareAt(s, k, g)
  }

  lemma SearchExactly(s: string)
    ensures SearchShare(s, 0).None? <==> forall k: nat, g: nat :: !ShareAt(s, k, g)
    ensures SearchShare(s, 0).Some? ==>
              forall i: nat, h: nat :: FirstShare(s, i, h) ==> i == SearchShare(s, 0).value.0
  {
    forall k: nat, g: nat | ShareAt(s, k, g) ensures ShareEnd(s, k).Some? && k < |s| {
      ShareEndExactly(s, k);
      hide ShareEnd;
    }
    hide ShareAt, ShareEnd;
    if SearchShare(s, 0).Some? {
      ShareEndExactly(s, SearchShare(s, 0).value.0);
    }
    forall k: nat, g: nat | ShareAt(s, k, g)
      ensures SearchShare(s, 0).Some? && SearchShare(s, 0).value.0 <= k
    {
      if SearchShare(s, 0).None? || k < SearchShare(s, 0).value.0 { SearchLeftmost(s, 0, k); }
    }
  }

  /** A text is recognised as a share exactly if one of the twelve heads, followed by a character of a
      code, stands in it. */
  lemma RecognisedExactly(url: string)
    ensures Normalize(url) != "" <==> ShareIn(Strip(url))
  {
    ParsedMatch(url);
    SearchExactly(Strip(url));
    hide Normalize, SearchShare, ShareAt;
  }

  /** The share code is the whole run of code characters from `h` to `c`. */
  predicate CodeRun(s: string, h: nat, c: nat) {
    h < c <= |s| && (forall j :: h <= j < c ==> CodeChar(s[j])) && (c < |s| ==> !CodeChar(s[c]))
  }

  /** Behind the share code stands a receive code from `p` to `e`: at least two and at most twelve characters. */
  ghost predicate ReceiveRun(s: string, c: nat, p: nat, e: nat) {
    && c < |s| && s[c] == '?' && ParamAt(s, c + 1, p) && p + 2 <= e <= p + 12 && e <= |s|
    && (forall j :: p <= j < e ==> HashChar(s[j]))
    && (e < p + 12 && e < |s| ==> !HashChar(s[e]))
  }

  lemma CodeRunEnd(s: string, h: nat, c: nat)
    requires CodeRun(s, h, c)
    ensures RunEnd(s, h, IsCodeChar) == c
  {
    hide IsCodeChar, CodeChar;
    forall j | h <= j < c ensures IsCodeChar(s[j]) { CharsExactly(s[j]); }
    if c < |s| { CharsExactly(s[c]); }
    RunEndIs(s, h, IsCodeChar, c);
  }

  lemma {:induction false} RunCovers(s: string, i: nat, p: char -> bool, e: nat)
    requires i <= e <= |s| && forall j :: i <= j < e ==> p(s[j])
    ensures e <= RunEnd(s, i, p)
    decreases e - i
  {
    if i < e { RunCovers(s, i + 1, p, e); }
  }

  lemma ValueIs(s: string, i: nat, p: nat, e: nat)
    requires ParamEnd(s, i) == Some(p)
    ensures ParamValue(s, i) == Some((p, e)) <==>
              && p + 2 <= e <= p + 12 && e <= |s| && (forall j :: p <= j < e ==> IsAlnum(s[j]))
              && (e < p + 12 && e < |s| ==> !IsAlnum(s[e]))
  {
    hide ParamEnd, IsAlnum;
    if p + 2 <= e <= |s| && forall j :: p <= j < e ==> IsAlnum(s[j]) {
      RunCovers(s, p, IsAlnum, e);
    }
  }

  lemma ReceiveRunIs(s: string, c: nat, p: nat, e: nat)
    requires c < |s| && s[c] == '?'
    ensures ParamValue(s, c + 1) == Some((p, e)) <==> ReceiveRun(s, c, p, e)
  {
    ParamExactly(s, c + 1, p);
    if ParamEnd(s, c + 1) == Some(p) {
      ValueIs(s, c + 1, p, e);
      hide ParamEnd, ParamValue, ParamAt, IsAlnum, HashChar;
      forall j | 0 <= j < |s| ensures IsAlnum(s[j]) <==> HashChar(s[j]) { CharsExactly(s[j]); }
    } else {
      hide ParamEnd, ParamAt;
    }
  }

  lemma MatchedIs(s: string, i: nat, h: nat, c: nat)
    requires HeadEnd(s, i) == Some(h) && RunEnd(s, h, IsCodeChar) == c
    ensures c <= |s| && MatchedShare(s, i).code == s[h..c]
    ensures MatchedShare(s, i).receive
            == if c < |s| && s[c] == '?' && ParamValue(s, c + 1).Some?
               then Some(s[ParamValue(s, c + 1).value.0..ParamValue(s, c + 1).value.1])
               else None
  {
    hide HeadEnd, ParamValue, IsCodeChar;
  }

  lemma FirstMatch(url: string, i: nat, h: nat)
    requires FirstShare(Strip(url), i, h)
    ensures HeadEnd(Strip(url), i) == Some(h) && Parse(url) == MatchedShare(Strip(url), i)
  {
    var v := Strip(url);
    SearchExactly(v);
    ParsedMatch(url);
    HeadExactly(v, i, h);
    hide SearchShare, HeadEnd, HeadAt, MatchedShare, Parse, Normalize, CodeChar, Strip;
    assert ShareAt(v, i, h) && HeadAt(v, i, h);
  }

  /** What is read of a recognised link: the leftmost share, its whole code, and the receive code behind it. */
  lemma ParseExactly(url: string, i: nat, h: nat, c: nat)
    requires FirstShare(Strip(url), i, h) && CodeRun(Strip(url), h, c)
    ensures Parse(url).code == Strip(url)[h..c]
    ensures forall p: nat, e: nat :: ReceiveRun(Strip(url), c, p, e) ==> Parse(url).receive == Some(Strip(url)[p..e])
    ensures (forall p: nat, e: nat :: !ReceiveRun(Strip(url), c, p, e)) ==> Parse(url).receive == None
  {
    var v := Strip(url);
    FirstMatch(url, i, h);
    CodeRunEnd(v, h, c);
    hide Strip, Parse, FirstShare, HeadEnd, CodeRun, ReceiveRun, ParamValue, RunEnd, MatchedShare;
    MatchedIs(v, i, h, c);
    if c < |v| && v[c] == '?' {
      forall p: nat, e: nat ensures ParamValue(v, c + 1) == Some((p, e)) <==> ReceiveRun(v, c, p, e) {
        ReceiveRunIs(v, c, p, e);
      }
    } else {
      NoReceive(v, c);
    }
  }

  lemma NoReceive(s: string, c: nat)
    requires !(c < |s| && s[c] == '?')
    ensures forall p: nat, e: nat :: !ReceiveRun(s, c, p, e)
  {
  }

  // ------------------------------------------------------------------ magnets

  /** A marker stands at `i`, and behind it, from `h` on, at least 32 characters of a hash. */
  ghost predicate MagnetStart(s: string, i: nat, h: nat) {
    && ((TextAt(s, i, "btih:") && h == i + 5) || (TextAt(s, i, "xt=urn:btih:") && h == i + 12))
    && h + 32 <= |s| && forall j :: h <= j < h + 32 ==> HashChar(s[j])
  }

  ghost predicate MagnetIn(s: string) { exists i: nat, h: nat :: MagnetStart(s, i, h) }

  ghost predicate FirstMagnet(s: string, i: nat, h: nat) {
    MagnetStart(s, i, h) && forall k: nat, g: nat :: k < i ==> !MagnetStart(s, k, g)
  }

  /** The hash goes on to `e`: as long as there are hash characters, up to forty. */
  predicate HashRun(s: string, h: nat, e: nat) {
    && h + 32 <= e <= h + 40 && e <= |s| && (forall j :: h <= j < e ==> HashChar(s[j]))
    && (e < h + 40 && e < |s| ==> !HashChar(s[e]))
  }

  lemma HashAtIs(s: string, h: nat, e: nat)
    requires HashRun(s, h, e)
    ensures HashAt(s, h) == Some(s[h..e])
  {
    hide IsAlnum, HashChar;
    forall j | 0 <= j < |s| ensures IsAlnum(s[j]) <==> HashChar(s[j]) { CharsExactly(s[j]); }
    RunCovers(s, h, IsAlnum, e);
  }

  lemma HashAtSome(s: string, h: nat)
    ensures HashAt(s, h).Some? <==> h + 32 <= |s| && forall j :: h <= j < h + 32 ==> HashChar(s[j])
  {
    hide IsAlnum, HashChar;
    forall j | 0 <= j < |s| ensures IsAlnum(s[j]) <==> HashChar(s[j]) { CharsExactly(s[j]); }
    if h + 32 <= |s| && forall j :: h <= j < h + 32 ==> HashChar(s[j]) { RunCovers(s, h, IsAlnum, h + 32); }
  }

  lemma MarkersApart(s: string, i: nat)
    ensures !(LitAt(s, i, "btih:") && LitAt(s, i, "xt=urn:btih:"))
  {
    if LitAt(s, i, "btih:") {
      LitChar(s, i, "btih:", 0);
      NoLit(s, i, "xt=urn:btih:", 0);
    }
  }

  lemma MarkersExactly(s: string, i: nat)
    ensures LitAt(s, i, "btih:") <==> TextAt(s, i, "btih:")
    ensures LitAt(s, i, "xt=urn:btih:") <==> TextAt(s, i, "xt=urn:btih:")
  {
    assert Plain("btih:") && Plain("xt=urn:btih:");
    hide LitAt, TextAt, Plain;
    TextExactly(s, i, "btih:");
    TextExactly(s, i, "xt=urn:btih:");
  }

  lemma MagnetAtExactly(s: string, i: nat)
    ensures MagnetAt(s, i).Some? <==> exists h: nat :: MagnetStart(s, i, h)
    ensures forall h: nat, e: nat :: MagnetStart(s, i, h) && HashRun(s, h, e) ==> MagnetAt(s, i) == Some(s[h..e])
  {
    MarkersExactly(s, i);
    HashAtSome(s, i + 5);
    HashAtSome(s, i + 12);
    hide LitAt, TextAt, HashAt, HashChar, HashRun;
    assert MagnetAt(s, i).Some? ==> MagnetStart(s, i, i + 5) || MagnetStart(s, i, i + 12);
    forall h: nat | MagnetStart(s, i, h) ensures MagnetAt(s, i).Some? && MagnetAt(s, i) == HashAt(s, h) {
      MarkersApart(s, i);
    }
    hide MagnetStart, MagnetAt;
    forall h: nat, e: nat | MagnetStart(s, i, h) && HashRun(s, h, e) ensures MagnetAt(s, i) == Some(s[h..e]) {
      HashAtIs(s, h, e);
    }
  }

  lemma {:induction false} SearchMagnetFrom(s: string, i: nat, k: nat)
    requires i <= k < |s| && MagnetAt(s, k).Some? && forall j :: i <= j < k ==> MagnetAt(s, j).None?
    ensures SearchMagnet(s, i) == MagnetAt(s, k)
    decreases k - i
  {
    hide MagnetAt;
    if i < k { SearchMagnetFrom(s, i + 1, k); }
  }

  lemma MagnetFound(s: string)
    ensures SearchMagnet(s, 0).Some? <==> MagnetIn(s)
  {
    forall i: nat, h: nat | MagnetStart(s, i, h) ensures i < |s| && MagnetAt(s, i).Some? { MagnetAtExactly(s, i); }
    forall i: nat | MagnetAt(s, i).Some? ensures exists h: nat :: MagnetStart(s, i, h) { MagnetAtExactly(s, i); }
    hide MagnetStart, MagnetAt;
  }

  lemma FirstMagnetFound(s: string, i: nat, h: nat, e: nat)
    requires FirstMagnet(s, i, h) && HashRun(s, h, e)
    ensures SearchMagnet(s, 0) == Some(s[h..e])
  {
    MagnetAtExactly(s, i);
    forall j | 0 <= j < i ensures MagnetAt(s, j).None? {
      MagnetAtExactly(s, j);
      hide MagnetStart, MagnetAt;
    }
    assert i < |s|;
    hide MagnetStart, MagnetAt, HashRun;
    SearchMagnetFrom(s, 0, i);
  }

  /** The small letter of a letter, and any other character as it is. */
  function Small(c: char): char { if 'A' <= c <= 'Z' then (c as int + 32) as char else c }

  /** `b` is `a` in small letters. */
  predicate SmallOf(a: string, b: string) { |b| == |a| && forall j :: 0 <= j < |a| ==> b[j] == Small(a[j]) }

  lemma MagnetKeyOf(url: string, hash: string)
    requires SearchMagnet(Strip(url), 0) == Some(hash) && Strip(url) != ""
    ensures DedupeKey(url).Some? && DedupeKey(url).value.kind == "magnet" && SmallOf(hash, DedupeKey(url).value.value)
  {
    hide Strip, SearchMagnet, Normalize, Canonical, IsShareUrl;
  }

  /** The key's value is the hash behind the leftmost marker, in small letters. */
  lemma MagnetKeyIs(url: string, i: nat, h: nat, e: nat)
    requires FirstMagnet(Strip(url), i, h) && HashRun(Strip(url), h, e)
    ensures DedupeKey(url).Some? && DedupeKey(url).value.kind == "magnet"
    ensures SmallOf(Strip(url)[h..e], DedupeKey(url).value.value)
  {
    hide Strip, SearchMagnet, DedupeKey, FirstMagnet, SmallOf;
    FirstMagnetFound(Strip(url), i, h, e);
    MagnetKeyOf(url, Strip(url)[h..e]);
  }

  /** The same letter in either case, or the same character. */
  predicate SameLetter(c: char, d: char) {
    c == d || ('A' <= c <= 'Z' && d as int == c as int + 32) || ('A' <= d <= 'Z' && c as int == d as int + 32)
  }

  predicate SameLetters(a: string, b: string) { |a| == |b| && forall j :: 0 <= j < |a| ==> SameLetter(a[j], b[j]) }

  lemma SmallSame(c: char, d: char)
    ensures Small(c) == Small(d) <==> SameLetter(c, d)
  {
  }

  lemma SmallAgree(a: string, small: string, b: string, tiny: string)
    requires SmallOf(a, small) && SmallOf(b, tiny)
    ensures small == tiny <==> SameLetters(a, b)
  {
    hide Small, SameLetter;
    if |a| == |b| {
      forall j | 0 <= j < |a| ensures small[j] == tiny[j] <==> SameLetter(a[j], b[j]) { SmallSame(a[j], b[j]); }
      if SameLetters(a, b) { assert small == tiny; }
    }
  }

  /** Two magnet links have equal keys exactly if their hashes are equal up to letter case. */
  lemma MagnetKeysAgreeExactly(u: string, i: nat, h: nat, e: nat, w: string, k: nat, g: nat, f: nat)
    requires FirstMagnet(Strip(u), i, h) && HashRun(Strip(u), h, e)
    requires FirstMagnet(Strip(w), k, g) && HashRun(Strip(w), g, f)
    ensures DedupeKey(u) == DedupeKey(w) <==> SameLetters(Strip(u)[h..e], Strip(w)[g..f])
  {
    MagnetKeyIs(u, i, h, e);
    MagnetKeyIs(w, k, g, f);
    hide FirstMagnet, DedupeKey, Strip, SmallOf, SameLetters;
    SmallAgree(Strip(u)[h..e], DedupeKey(u).value.value, Strip(w)[g..f], DedupeKey(w).value.value);
  }

  lemma KeyCases(url: string)
    ensures DedupeKey(url)
            == if Strip(url) == "" then None
               else if SearchMagnet(Strip(url), 0).Some? then
                 Some(Key("magnet", Lower(SearchMagnet(Strip(url), 0).value)))
               else if Normalize(url) != "" then Some(Key("115", Print(Parse(url))))
               else Some(Key("url", Strip(url)))
  {
    ShareKey(url);
    NormalStrip(url);
    if Normalize(url) != "" { CanonicalPrints(url); }
    hide Strip, SearchMagnet, Normalize, Canonical, IsShareUrl, Lower, Parse, Print;
  }

  /** The kinds of keys: none for a blank text; a magnet before a share, and the stripped text itself
      where neither stands in it. */
  lemma KindsExactly(url: string)
    ensures DedupeKey(url).None? <==> forall j :: 0 <= j < |url| ==> IsSpace(url[j])
    ensures DedupeKey(url).Some? ==>
              var key, v := DedupeKey(url).value, Strip(url);
              && (key.kind == "magnet" <==> MagnetIn(v))
              && (key.kind == "115" <==> !MagnetIn(v) && ShareIn(v))
              && (key.kind == "115" ==> key.value == Print(Parse(url)))
              && (!MagnetIn(v) && !ShareIn(v) ==> key == Key("url", v))
  {
    KeyCases(url);
    StripBlank(url);
    RecognisedExactly(url);
    MagnetFound(Strip(url));
    assert |"magnet"| == 6 && |"115"| == 3 && |"url"| == 3 && "115"[0] != "url"[0];
    hide DedupeKey, Strip, SearchMagnet, Normalize, MagnetIn, ShareIn, Lower, Parse, Print, IsSpace;
  }
}

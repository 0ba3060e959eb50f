/**
 115 share links: the recogniser, its canonical printer, and the deduplication key
 built on both.  The regular expressions are written out as deterministic scanners;
 none of them ever needs to backtrack into a part it has already matched.
 */
module ShareLinks {
  import opened PyText

  // ---------------------------------------------------------------- scanners

  /** The representative of a character under `re.I`: the ASCII lower case, and the four
      non-ASCII letters that Python's case-insensitive matching identifies with ASCII ones. */
  function Fold(c: char): char {
    if 'A' <= c <= 'Z' then (c as int + 32) as char
    else if c == '\U{017F}' then 's'
    else if c == '\U{212A}' then 'k'
    else if c == '\U{0130}' || c == '\U{0131}' then 'i'
    else c
  }

  predicate IsAlnum(c: char) { 'a' <= Fold(c) <= 'z' || '0' <= c <= '9' }

  predicate IsCodeChar(c: char) { IsAlnum(c) || c == '_' || c == '-' }

  /** `p` (in lower case) stands at `i`, ignoring case. */
  predicate LitAt(s: string, i: nat, p: string) {
    i + |p| <= |s| && forall j {:trigger p[j]} :: 0 <= j < |p| ==> Fold(s[i + j]) == p[j]
  }

  /** End of the longest run of characters satisfying `p` that starts at `i`. */
  function RunEnd(s: string, i: nat, p: char -> bool): (e: nat)
    requires i <= |s|
    ensures i <= e <= |s|
    ensures forall j :: i <= j < e ==> p(s[j])
    ensures e < |s| ==> !p(s[e])
    decreases |s| - i
  {
    if i < |s| && p(s[i]) then RunEnd(s, i + 1, p) else i
  }

  lemma RunEndIs(s: string, i: nat, p: char -> bool, e: nat)
    requires i <= e <= |s|
    requires forall j :: i <= j < e ==> p(s[j])
    requires e < |s| ==> !p(s[e])
    ensures RunEnd(s, i, p) == e
  {
  }

  /** `(?:https?://)?` at `i`. */
  function SchemeEnd(s: string, i: nat): nat {
    if LitAt(s, i, "https://") then i + 8 else if LitAt(s, i, "http://") then i + 7 else i
  }

  /** `(?:www\.)?` at `i`. */
  function WwwEnd(s: string, i: nat): (r: nat)
    ensures i <= r
  {
    if LitAt(s, i, "www.") then i + 4 else i
  }

  /** `115(?:cdn)?\.com/s/` at `i`. */
  function HostEnd(s: string, i: nat): (r: Option<nat>)
    ensures r.Some? ==> i + 10 <= r.value <= |s|
  {
    if !LitAt(s, i, "115") then None
    else if LitAt(s, i + 3, "cdn") then (if LitAt(s, i + 6, ".com/s/") then Some(i + 13) else None)
    else if LitAt(s, i + 3, ".com/s/") then Some(i + 10) else None
  }

  /** `(?:https?://)?(?:www\.)?115(?:cdn)?\.com/s/` at `i`: the position behind it. */
  function HeadEnd(s: string, i: nat): (r: Option<nat>)
    ensures r.Some? ==> i + 10 <= r.value <= |s|
  {
    HostEnd(s, WwwEnd(s, SchemeEnd(s, i)))
  }

  /** `(?:password|pwd|receive_code)=` at `i`: the position behind it. */
  function ParamEnd(s: string, i: nat): (r: Option<nat>)
    ensures r.Some? ==> i + 4 <= r.value <= |s|
  {
    if LitAt(s, i, "password=") then Some(i + 9)
    else if LitAt(s, i, "pwd=") then Some(i + 4)
    else if LitAt(s, i, "receive_code=") then Some(i + 13)
    else None
  }

  function Min(a: nat, b: nat): nat { if a < b then a else b }

  /** `(?:password|pwd|receive_code)=[A-Za-z0-9]{2,12}` at `i`: bounds of the value. */
  function ParamValue(s: string, i: nat): (r: Option<(nat, nat)>)
    ensures r.Some? ==> i + 4 <= r.value.0 && r.value.0 + 2 <= r.value.1 <= |s| && r.value.1 <= r.value.0 + 12
    ensures r.Some? ==> forall j :: r.value.0 <= j < r.value.1 ==> IsAlnum(s[j])
  {
    match ParamEnd(s, i)
    case None => None
    case Some(v) =>
      var e := Min(RunEnd(s, v, IsAlnum), v + 12);
      if e - v >= 2 then Some((v, e)) else None
  }

  /** `PAN115_URL_RE.match` at `i`: the end of the match. */
  function ShareEnd(s: string, i: nat): (r: Option<nat>)
    ensures r.Some? ==> i + 11 <= r.value <= |s|
  {
    match HeadEnd(s, i)
    case None => None
    case Some(h) =>
      var e := RunEnd(s, h, IsCodeChar);
      if e == h then None
      else if e < |s| && s[e] == '?' && ParamValue(s, e + 1).Some? then Some(ParamValue(s, e + 1).value.1)
      else Some(e)
  }

  /** `PAN115_URL_RE.search` from `i`: bounds of the leftmost match. */
  function SearchShare(s: string, i: nat): (r: Option<(nat, nat)>)
    ensures r.Some? ==> i <= r.value.0 && ShareEnd(s, r.value.0) == Some(r.value.1)
    decreases |s| - i
  {
    if i >= |s| then None
    else if ShareEnd(s, i).Some? then Some((i, ShareEnd(s, i).value))
    else SearchShare(s, i + 1)
  }

  /** Before the match there is none. */
  lemma {:induction false} SearchLeftmost(s: string, i: nat, k: nat)
    requires i <= k < |s| && (SearchShare(s, i).Some? ==> k < SearchShare(s, i).value.0)
    ensures ShareEnd(s, k).None?
    decreases |s| - i
  {
    hide ShareEnd;
    if i < k { SearchLeftmost(s, i + 1, k); }
  }

  predicate Bare(g: string) {
    LitAt(g, 0, "115.com/") || LitAt(g, 0, "115cdn.com/") || LitAt(g, 0, "www.115.com/")
      || LitAt(g, 0, "www.115cdn.com/")
  }

  /** `normalize_115_share_link`. */
  function Normalize(link: string): string {
    var v := Strip(link);
    match SearchShare(v, 0)
    case None => ""
    case Some(m) =>
      var g := v[m.0..m.1];
      if Bare(g) then "https://" + g else g
  }

  // ------------------------------------------------- urlparse on a clean link

  predicate NotMark(c: char) { c != '?' }

  /** Position of the first `?`, or the length. */
  function QueryStart(s: string): (q: nat)
    ensures q <= |s|
    ensures '?' !in s[..q]
    ensures q < |s| ==> s[q] == '?'
  {
    RunEnd(s, 0, NotMark)
  }

  function RTrimSlash(s: string): (r: string)
    ensures |r| <= |s| && r == s[..|r|]
  {
    if s != [] && s[|s| - 1] == '/' then RTrimSlash(s[..|s| - 1]) else s
  }

  function LastSegment(s: string): string {
    if s == [] || s[|s| - 1] == '/' then "" else LastSegment(s[..|s| - 1]) + [s[|s| - 1]]
  }

  /** `(?:^|[?&])(?:password|pwd|receive_code)=([A-Za-z0-9]{2,12})` searched from `i`. */
  function SearchCode(q: string, i: nat): Option<string>
    decreases |q| - i
  {
    if i >= |q| then None
    else if i == 0 && ParamValue(q, 0).Some? then Some(q[ParamValue(q, 0).value.0..ParamValue(q, 0).value.1])
    else if (q[i] == '?' || q[i] == '&') && ParamValue(q, i + 1).Some? then
      Some(q[ParamValue(q, i + 1).value.0..ParamValue(q, i + 1).value.1])
    else SearchCode(q, i + 1)
  }

  datatype Share = Share(code: string, receive: Option<string>)

  /** `parse_115_share_link`. */
  function Parse(link: string): Share {
    ParseClean(Normalize(link))
  }

  function ParseClean(clean: string): Share {
    if clean == "" then Share("", None) else
    var q := QueryStart(clean);
    Share(LastSegment(RTrimSlash(clean[..q])), if q < |clean| then SearchCode(clean[q + 1..], 0) else None)
  }

  // ------------------------------------------------------- printer and key

  const PREFIX := "https://115.com/s/"

  function Print(share: Share): string {
    if share.receive.Some? && share.receive.value != "" then PREFIX + share.code + "?password=" + share.receive.value
    else PREFIX + share.code
  }

  /** `PAN115_URL_RE.match`. */
  predicate IsShareUrl(s: string) { ShareEnd(s, 0).Some? }

  /** `canonical_115_url`. */
  function Canonical(url: string): string {
    var v := Normalize(url);
    if v == "" || !IsShareUrl(v) then url else
    var share := Parse(v);
    if share.code == "" then url else Print(share)
  }

  function AsciiLower(c: char): char { if 'A' <= c <= 'Z' then (c as int + 32) as char else c }

  function Lower(s: string): string { seq(|s|, i requires 0 <= i < |s| => AsciiLower(s[i])) }

  /** `[a-z0-9]{32,40}` at `h`. */
  function HashAt(s: string, h: nat): Option<string> {
    if h <= |s| && RunEnd(s, h, IsAlnum) - h >= 32 then Some(s[h..Min(RunEnd(s, h, IsAlnum), h + 40)]) else None
  }

  function MagnetAt(s: string, i: nat): Option<string> {
    if LitAt(s, i, "xt=urn:btih:") && HashAt(s, i + 12).Some? then HashAt(s, i + 12)
    else if LitAt(s, i, "btih:") then HashAt(s, i + 5)
    else None
  }

  /** `MAGNET_BTIH_RE.search`. */
  function SearchMagnet(s: string, i: nat): (r: Option<string>)
    ensures r.None? ==> forall k :: i <= k < |s| ==> MagnetAt(s, k).None?
    ensures (forall k :: i <= k < |s| ==> MagnetAt(s, k).None?) ==> r.None?
    decreases |s| - i
  {
    if i >= |s| then None
    else if MagnetAt(s, i).Some? then MagnetAt(s, i)
    else SearchMagnet(s, i + 1)
  }

  datatype Key = Key(kind: string, value: string)

  /** `resource_dedupe_key`. */
  function DedupeKey(url: string): Option<Key> {
    var value := Strip(url);
    if value == "" then None
    else if SearchMagnet(value, 0).Some? then Some(Key("magnet", Lower(SearchMagnet(value, 0).value)))
    else
      var clean := Normalize(value);
      if clean != "" && IsShareUrl(clean) then Some(Key("115", Canonical(clean))) else Some(Key("url", value))
  }

  // ------------------------------------------------- the shape of a match

  predicate CodeOk(code: string) { code != "" && forall j :: 0 <= j < |code| ==> IsCodeChar(code[j]) }

  predicate ReceiveOk(r: Option<string>) {
    r.Some? ==> 2 <= |r.value| <= 12 && forall j :: 0 <= j < |r.value| ==> IsAlnum(r.value[j])
  }

  predicate ShareOk(share: Share) { CodeOk(share.code) && ReceiveOk(share.receive) }

  /** `tail` is empty or `?key=value`, and says what the share's receive code is. */
  predicate TailOk(tail: string, r: Option<string>) {
    && ReceiveOk(r)
    && (r.None? ==> tail == "")
    && (r.Some? ==>
          |tail| > |r.value| && tail[0] == '?' && tail[|tail| - |r.value|..] == r.value
          && ParamEnd(tail, 1) == Some(|tail| - |r.value|))
  }

  /** A clean link is a head, a share code and an optional receive code. */
  predicate Shape(g: string, head: string, share: Share, tail: string) {
    && g == head + share.code + tail
    && HeadEnd(head, 0) == Some(|head|)
    && CodeOk(share.code) && TailOk(tail, share.receive)
  }

  /** `t` repeats at `k` the `n` characters `s` has at `i`. */
  predicate Agree(s: string, i: nat, t: string, k: nat, n: nat) {
    i + n <= |s| && k + n <= |t| && s[i..i + n] == t[k..k + n]
  }

  lemma LitAgree(s: string, i: nat, t: string, k: nat, n: nat, d: nat, p: string)
    requires Agree(s, i, t, k, n) && d + |p| <= n
    ensures LitAt(s, i + d, p) == LitAt(t, k + d, p)
  {
    forall j | 0 <= j < |p| ensures Fold(s[i + d + j]) == p[j] <==> Fold(t[k + d + j]) == p[j] {
      assert s[i + d + j] == s[i..i + n][d + j] == t[k..k + n][d + j] == t[k + d + j];
    }
  }

  /** Character `d` of a matched literal. */
  lemma LitChar(s: string, i: nat, p: string, d: nat)
    requires LitAt(s, i, p) && d < |p|
    ensures Fold(s[i + d]) == p[d]
  {
  }

  lemma LitConcat(s: string, i: nat, p: string, q: string)
    ensures LitAt(s, i, p + q) <==> LitAt(s, i, p) && LitAt(s, i + |p|, q)
  {
    var w := p + q;
    if LitAt(s, i, w) {
      forall j | 0 <= j < |p| ensures Fold(s[i + j]) == p[j] { assert w[j] == p[j]; }
      forall j | 0 <= j < |q| ensures Fold(s[i + |p| + j]) == q[j] { assert w[|p| + j] == q[j]; }
    }
    if LitAt(s, i, p) && LitAt(s, i + |p|, q) {
      forall j | 0 <= j < |w| ensures Fold(s[i + j]) == w[j] {
        if j >= |p| { assert w[j] == q[j - |p|]; } else { assert w[j] == p[j]; }
      }
    }
  }

  lemma HostAgree(s: string, i: nat, t: string, k: nat, n: nat, d: nat)
    requires Agree(s, i, t, k, n) && HostEnd(s, i + d) == Some(i + n)
    ensures HostEnd(t, k + d) == Some(k + n)
  {
    hide LitAt, Agree;
    LitAgree(s, i, t, k, n, d, "115");
    LitAgree(s, i, t, k, n, d + 3, "cdn");
    LitAgree(s, i, t, k, n, d + 3, ".com/s/");
    if LitAt(s, i + d + 3, "cdn") {
      LitAgree(s, i, t, k, n, d + 6, ".com/s/");
    }
  }

  lemma WwwAgree(s: string, i: nat, t: string, k: nat, n: nat, d: nat)
    requires Agree(s, i, t, k, n) && d + 4 <= n
    ensures WwwEnd(t, k + d) - k == WwwEnd(s, i + d) - i
  {
    LitAgree(s, i, t, k, n, d, "www.");
  }

  /** The head of a match depends on the characters it covers only. */
  lemma HeadAgree(s: string, i: nat, t: string, k: nat, n: nat)
    requires Agree(s, i, t, k, n) && HeadEnd(s, i) == Some(i + n)
    ensures HeadEnd(t, k) == Some(k + n)
  {
    hide HostEnd, LitAt, Agree;
    LitAgree(s, i, t, k, n, 0, "https://");
    LitAgree(s, i, t, k, n, 0, "http://");
    var d := SchemeEnd(s, i) - i;
    WwwAgree(s, i, t, k, n, d);
    HostAgree(s, i, t, k, n, WwwEnd(s, i + d) - i);
  }

  /** Nothing inside a literal match folds to a character the literal lacks. */
  lemma LitAvoids(s: string, i: nat, p: string, c: char)
    requires LitAt(s, i, p) && Fold(c) !in p
    ensures forall j :: i <= j < i + |p| ==> s[j] != c
  {
    forall j | i <= j < i + |p| ensures s[j] != c {
      LitChar(s, i, p, j - i);
    }
  }

  lemma HostFacts(h: string, i: nat)
    requires HostEnd(h, i) == Some(|h|)
    ensures forall j :: i <= j < |h| ==> h[j] != '?'
    ensures h[|h| - 1] == '/' && h[i] == '1'
    ensures LitAt(h, i, "115.com/") || LitAt(h, i, "115cdn.com/")
  {
    LitAvoids(h, i, "115", '?');
    var c := if LitAt(h, i + 3, "cdn") then i + 6 else i + 3;
    if c == i + 6 {
      LitAvoids(h, i + 3, "cdn", '?');
    }
    LitAvoids(h, c, ".com/s/", '?');
    LitChar(h, c, ".com/s/", 6);
    LitChar(h, i, "115", 0);
    HostBare(h, i, c);
  }

  lemma HostBare(h: string, i: nat, c: nat)
    requires LitAt(h, i, "115") && LitAt(h, c, ".com/s/")
    requires c == i + 3 || (c == i + 6 && LitAt(h, i + 3, "cdn"))
    ensures LitAt(h, i, "115.com/") || LitAt(h, i, "115cdn.com/")
  {
    assert ".com/s/" == ".com/" + "s/" && "115.com/" == "115" + ".com/";
    assert "115cdn.com/" == "115" + ("cdn" + ".com/");
    LitConcat(h, c, ".com/", "s/");
    if c == i + 3 {
      LitConcat(h, i, "115", ".com/");
    } else {
      LitConcat(h, i + 3, "cdn", ".com/");
      LitConcat(h, i, "115", "cdn" + ".com/");
    }
  }

  lemma WwwBare(h: string)
    requires LitAt(h, 0, "www.")
    requires LitAt(h, 4, "115.com/") || LitAt(h, 4, "115cdn.com/")
    ensures LitAt(h, 0, "www.115.com/") || LitAt(h, 0, "www.115cdn.com/")
  {
    assert "www.115.com/" == "www." + "115.com/" && "www.115cdn.com/" == "www." + "115cdn.com/";
    LitConcat(h, 0, "www.", "115.com/");
    LitConcat(h, 0, "www.", "115cdn.com/");
  }

  lemma HeadFacts(h: string)
    requires HeadEnd(h, 0) == Some(|h|)
    ensures '?' !in h && h[|h| - 1] == '/' && !IsSpace(h[0])
    ensures Bare(h) <==> SchemeEnd(h, 0) == 0
  {
    var a := SchemeEnd(h, 0);
    var b := WwwEnd(h, a);
    HostFacts(h, b);
    if LitAt(h, a, "www.") {
      LitAvoids(h, a, "www.", '?');
      LitChar(h, a, "www.", 0);
    }
    if a > 0 { SchemeFacts(h); }
    if a == 0 && b == 4 {
      WwwBare(h);
    }
  }

  lemma NotBare(h: string)
    requires h != "" && Fold(h[0]) == 'h'
    ensures !Bare(h)
  {
    NoLit(h, 0, "115.com/", 0);
    NoLit(h, 0, "115cdn.com/", 0);
    NoLit(h, 0, "www.115.com/", 0);
    NoLit(h, 0, "www.115cdn.com/", 0);
  }

  lemma SchemeFacts(h: string)
    requires SchemeEnd(h, 0) > 0
    ensures forall j :: 0 <= j < SchemeEnd(h, 0) ==> h[j] != '?'
    ensures Fold(h[0]) == 'h' && !Bare(h)
  {
    if LitAt(h, 0, "https://") {
      LitAvoids(h, 0, "https://", '?');
      LitChar(h, 0, "https://", 0);
    } else {
      LitAvoids(h, 0, "http://", '?');
      LitChar(h, 0, "http://", 0);
    }
    NotBare(h);
  }

  lemma ParamAgree(s: string, i: nat, t: string, k: nat, n: nat)
    requires Agree(s, i, t, k, n) && ParamEnd(s, i) == Some(i + n)
    ensures ParamEnd(t, k) == Some(k + n)
  {
    if LitAt(s, i, "password=") {
      LitAgree(s, i, t, k, n, 0, "password=");
    } else if LitAt(s, i, "pwd=") {
      LitAgree(s, i, t, k, n, 0, "pwd=");
      LitChar(s, i, "pwd=", 1);
      assert s[i + 1] == s[i..i + n][1] == t[k..k + n][1] == t[k + 1];
      assert "password="[1] != "pwd="[1];
    } else {
      LitAgree(s, i, t, k, n, 0, "receive_code=");
      LitChar(s, i, "receive_code=", 0);
      assert s[i] == s[i..i + n][0] == t[k..k + n][0] == t[k];
      assert "password="[0] != "receive_code="[0] && "pwd="[0] != "receive_code="[0];
    }
  }

  lemma Cut(s: string, i: nat, h: nat, c: nat, e: nat)
    requires i <= h <= c <= e <= |s|
    ensures s[i..e] == s[i..h] + s[h..c] + s[c..e]
  {
  }

  lemma AgreeSlice(s: string, c: nat, e: nat, d: nat, n: nat)
    requires c + d + n <= e <= |s|
    ensures Agree(s, c + d, s[c..e], d, n)
  {
    var t := s[c..e];
    var left, right := s[c + d..c + d + n], t[d..d + n];
    forall j | 0 <= j < n ensures left[j] == right[j] {
      assert right[j] == t[d + j] == s[c + (d + j)];
    }
    assert left == right;
  }

  /** The codes that a match at `i` spells. */
  function MatchedShare(s: string, i: nat): Share
    requires HeadEnd(s, i).Some?
  {
    var h := HeadEnd(s, i).value;
    var c := RunEnd(s, h, IsCodeChar);
    var value := if c < |s| && s[c] == '?' then ParamValue(s, c + 1) else None;
    Share(s[h..c], if value.Some? then Some(s[value.value.0..value.value.1]) else None)
  }

  lemma MatchTail(s: string, c: nat) returns (r: string)
    requires c < |s| && s[c] == '?' && ParamValue(s, c + 1).Some?
    ensures TailOk(s[c..ParamValue(s, c + 1).value.1], Some(r))
    ensures r == s[ParamValue(s, c + 1).value.0..ParamValue(s, c + 1).value.1]
  {
    var v := ParamValue(s, c + 1).value;
    r := s[v.0..v.1];
    var tail := s[c..v.1];
    AgreeSlice(s, c, v.1, 1, v.0 - (c + 1));
    ParamAgree(s, c + 1, tail, 1, v.0 - (c + 1));
    assert tail[|tail| - |r|..] == r;
  }

  /** Every match is a head, a maximal code and an optional receive code. */
  lemma MatchShape(s: string, i: nat, e: nat) returns (head: string, share: Share, tail: string)
    requires ShareEnd(s, i) == Some(e)
    ensures Shape(s[i..e], head, share, tail) && share == MatchedShare(s, i)
  {
    hide HeadEnd, ParamValue, TailOk, Agree;
    var h := HeadEnd(s, i).value;
    var c := RunEnd(s, h, IsCodeChar);
    head, tail := s[i..h], s[c..e];
    AgreeSlice(s, i, h, 0, h - i);
    HeadAgree(s, i, head, 0, h - i);
    Cut(s, i, h, c, e);
    if e == c {
      share := Share(s[h..c], None);
      EmptyTail();
    } else {
      var r := MatchTail(s, c);
      share := Share(s[h..c], Some(r));
    }
  }

  lemma EmptyTail()
    ensures TailOk("", None)
  {
  }

  /** A text of that shape is matched from its first to its last character. */
  lemma ShapeMatches(g: string, head: string, share: Share, tail: string)
    requires Shape(g, head, share, tail)
    ensures ShareEnd(g, 0) == Some(|g|)
  {
    hide HeadEnd, ParamEnd, ParamValue;
    var h, c := |head|, |head| + |share.code|;
    assert Agree(head, 0, g, 0, h);
    HeadAgree(head, 0, g, 0, h);
    assert g[h..c] == share.code;
    forall j | h <= j < c ensures IsCodeChar(g[j]) { assert g[j] == share.code[j - h]; }
    RunEndIs(g, h, IsCodeChar, c);
    if share.receive.Some? {
      TailValue(g, c, share.receive.value, tail);
    }
  }

  lemma TailValue(g: string, c: nat, r: string, tail: string)
    requires c <= |g| && g[c..] == tail && TailOk(tail, Some(r))
    ensures ParamValue(g, c + 1) == Some((|g| - |r|, |g|)) && g[|g| - |r|..] == r
  {
    var v := |g| - |r|;
    assert Agree(tail, 1, g, c + 1, v - (c + 1));
    ParamAgree(tail, 1, g, c + 1, v - (c + 1));
    assert g[v..] == tail[|tail| - |r|..];
    forall j | v <= j < |g| ensures IsAlnum(g[j]) { assert g[j] == g[v..][j - v]; }
    RunEndIs(g, v, IsAlnum, |g|);
  }

  lemma SegmentAfter(head: string, code: string)
    requires head != "" && head[|head| - 1] == '/'
    requires forall j :: 0 <= j < |code| ==> code[j] != '/'
    ensures LastSegment(head + code) == code
  {
    if code == "" {
      assert head + code == head;
    } else {
      var init := code[..|code| - 1];
      SegmentAfter(head, init);
      assert (head + code)[..|head + code| - 1] == head + init;
    }
  }

  lemma AlnumNotSpace()
    ensures forall c :: IsAlnum(c) || IsCodeChar(c) ==> !IsSpace(c)
  {
  }

  lemma ShapeEnds(g: string, head: string, share: Share, tail: string)
    requires Shape(g, head, share, tail)
    ensures g != "" && g[0] == head[0] && !IsSpace(g[0]) && !IsSpace(g[|g| - 1])
  {
    HeadFacts(head);
    AlnumNotSpace();
    hide HeadEnd, IsSpace, IsAlnum, IsCodeChar, ParamEnd, SchemeEnd, LitAt;
    if share.receive.Some? {
      assert tail[|tail| - |share.receive.value|..][|share.receive.value| - 1] == tail[|tail| - 1] == g[|g| - 1];
    } else {
      assert g[|g| - 1] == share.code[|share.code| - 1];
    }
  }

  lemma ShapeNormal(g: string, head: string, share: Share, tail: string)
    requires Shape(g, head, share, tail) && SchemeEnd(head, 0) > 0
    ensures Normalize(g) == g
  {
    ShapeMatches(g, head, share, tail);
    ShapeEnds(g, head, share, tail);
    BareAgree(head, g);
    StripTight(g);
    assert g[0..|g|] == g;
  }

  lemma ShapeQuery(g: string, head: string, share: Share, tail: string)
    requires Shape(g, head, share, tail)
    ensures QueryStart(g) == |head + share.code| && g[..QueryStart(g)] == head + share.code
    ensures tail == g[QueryStart(g)..] && TailOk(tail, share.receive)
    ensures share.receive.Some? <==> QueryStart(g) < |g|
  {
    HeadFacts(head);
    var q := |head + share.code|;
    forall j | 0 <= j < q ensures g[j] != '?' {
      if j >= |head| {
        assert g[j] == share.code[j - |head|];
      } else {
        assert g[j] == head[j];
      }
    }
    assert q < |g| ==> g[q] == tail[0];
    RunEndIs(g, 0, NotMark, q);
  }

  /** A clean link is its own normal form, and the parser reads off its parts. */
  lemma ShapeParses(g: string, head: string, share: Share, tail: string)
    requires Shape(g, head, share, tail)
    ensures ParseClean(g) == share
  {
    ShapeQuery(g, head, share, tail);
    HeadFacts(head);
    PathParses(head, share.code);
    var q := QueryStart(g);
    if share.receive.Some? {
      QueryParses(g, q, share.receive.value, tail);
    }
    ParseParts(g, q, share);
  }

  lemma ParseParts(g: string, q: nat, share: Share)
    requires g != "" && QueryStart(g) == q && LastSegment(RTrimSlash(g[..q])) == share.code
    requires if q < |g| then SearchCode(g[q + 1..], 0) == share.receive else share.receive.None?
    ensures ParseClean(g) == share
  {
  }

  lemma PathParses(head: string, code: string)
    requires head != "" && head[|head| - 1] == '/' && CodeOk(code)
    ensures LastSegment(RTrimSlash(head + code)) == code
  {
    SegmentAfter(head, code);
    assert (head + code)[|head + code| - 1] == code[|code| - 1];
  }

  lemma QueryParses(g: string, q: nat, r: string, tail: string)
    requires q < |g| && g[q..] == tail && TailOk(tail, Some(r))
    ensures SearchCode(g[q + 1..], 0) == Some(r)
  {
    var t := g[q + 1..];
    assert t == tail[1..];
    var n := |t| - |r|;
    assert Agree(tail, 1, t, 0, n);
    ParamAgree(tail, 1, t, 0, n);
    assert t[n..] == r;
    forall j | n <= j < |t| ensures IsAlnum(t[j]) { assert t[j] == t[n..][j - n]; }
    RunEndIs(t, n, IsAlnum, |t|);
    assert t[n..|t|] == r && 2 <= |r| <= 12;
    hide IsAlnum, RunEnd, Agree, ParamEnd;
    assert ParamValue(t, 0) == Some((n, |t|));
  }

  lemma BareAgree(head: string, g: string)
    requires HeadEnd(head, 0) == Some(|head|) && |head| <= |g| && g[..|head|] == head
    requires SchemeEnd(head, 0) > 0
    ensures !Bare(g)
  {
    SchemeFacts(head);
    assert g[0] == head[0];
    NotBare(g);
  }

  lemma BareCarries(head: string, g: string)
    requires HeadEnd(head, 0) == Some(|head|) && |head| <= |g| && g[..|head|] == head
    ensures Bare(g) <==> SchemeEnd(head, 0) == 0
  {
    HeadFacts(head);
    if SchemeEnd(head, 0) > 0 {
      BareAgree(head, g);
    } else {
      assert Agree(head, 0, g, 0, |head|) by { assert head[0..|head|] == head; }
      var p := if LitAt(head, 0, "115.com/") then "115.com/" else if LitAt(head, 0, "115cdn.com/") then "115cdn.com/"
        else if LitAt(head, 0, "www.115.com/") then "www.115.com/" else "www.115cdn.com/";
      LitAgree(head, 0, g, 0, |head|, 0, p);
    }
  }

  lemma SchemeAdded(bare: string)
    ensures SchemeEnd("https://" + bare, 0) == 8
  {
    assert LitAt("https://" + bare, 0, "https://");
  }

  lemma WithScheme(bare: string, head: string)
    requires HeadEnd(bare, 0) == Some(|bare|) && SchemeEnd(bare, 0) == 0 && head == "https://" + bare
    ensures HeadEnd(head, 0) == Some(|head|) && SchemeEnd(head, 0) == 8
  {
    hide WwwEnd, HostEnd;
    SchemeAdded(bare);
    assert Agree(bare, 0, head, 8, |bare|) by {
      assert bare[0..|bare|] == bare;
      assert head[8..8 + |bare|] == bare;
    }
    WwwAgree(bare, 0, head, 8, |bare|, 0);
    HostAgree(bare, 0, head, 8, |bare|, WwwEnd(bare, 0));
  }

  /** Normalising gives nothing, or a clean link with a scheme. */
  lemma NormalShape(link: string) returns (head: string, share: Share, tail: string)
    ensures Normalize(link) != "" ==> Shape(Normalize(link), head, share, tail) && SchemeEnd(head, 0) > 0
    ensures Normalize(link) != "" ==>
              var m := SearchShare(Strip(link), 0); m.Some? && share == MatchedShare(Strip(link), m.value.0)
  {
    var v := Strip(link);
    head, share, tail := "", Share("", None), "";
    if Normalize(link) != "" {
      var m := SearchShare(v, 0).value;
      var g := v[m.0..m.1];
      head, share, tail := MatchShape(v, m.0, m.1);
      head := SchemeShape(g, head, share, tail);
    }
  }

  lemma SchemeShape(g: string, h: string, share: Share, tail: string) returns (head: string)
    requires Shape(g, h, share, tail)
    ensures Shape(if Bare(g) then "https://" + g else g, head, share, tail) && SchemeEnd(head, 0) > 0
  {
    assert g[..|h|] == h;
    BareCarries(h, g);
    head := h;
    if SchemeEnd(h, 0) == 0 {
      head := "https://" + h;
      WithScheme(h, head);
      assert "https://" + g == head + share.code + tail;
    }
  }

  // --------------------------------------------------------- main results

  lemma PrintShape(share: Share) returns (tail: string)
    requires ShareOk(share)
    ensures Shape(Print(share), PREFIX, share, tail) && SchemeEnd(PREFIX, 0) > 0
  {
    PrefixHead();
    if share.receive.Some? {
      tail := "?password=" + share.receive.value;
      assert LitAt(tail, 1, "password=");
      hide HeadEnd, SchemeEnd, LitAt, IsCodeChar, IsAlnum;
      assert |tail| == 10 + |share.receive.value|;
      assert tail[10..] == share.receive.value;
      assert Print(share) == PREFIX + share.code + tail;
    } else {
      tail := "";
      assert Print(share) == PREFIX + share.code + tail;
    }
  }

  lemma PrefixHead()
    ensures HeadEnd(PREFIX, 0) == Some(|PREFIX|) && SchemeEnd(PREFIX, 0) == 8
  {
    hide LitAt, SchemeEnd, WwwEnd, HostEnd;
    var bare := "115.com/s/";
    BareStart(bare);
    BareHost(bare);
    WithScheme(bare, PREFIX);
  }

  lemma BareStart(bare: string)
    requires bare == "115.com/s/"
    ensures SchemeEnd(bare, 0) == 0 && WwwEnd(bare, 0) == 0
  {
    NoLit(bare, 0, "https://", 0);
    NoLit(bare, 0, "http://", 0);
    NoLit(bare, 0, "www.", 0);
  }

  lemma BareHost(bare: string)
    requires bare == "115.com/s/"
    ensures HostEnd(bare, 0) == Some(10)
  {
    NoLit(bare, 3, "cdn", 0);
    assert LitAt(bare, 0, "115");
    assert LitAt(bare, 3, ".com/s/");
  }

  /** Printing and parsing are inverse on every share. */
  lemma ParsePrint(share: Share)
    requires ShareOk(share)
    ensures Parse(Print(share)) == share
    ensures Normalize(Print(share)) == Print(share) && Canonical(Print(share)) == Print(share)
  {
    var tail := PrintShape(share);
    ShapeParses(Print(share), PREFIX, share, tail);
    ShapeNormal(Print(share), PREFIX, share, tail);
    ShapeMatches(Print(share), PREFIX, share, tail);
  }

  /** The parser returns the codes of the leftmost match. */
  lemma ParsedMatch(url: string)
    ensures var m := SearchShare(Strip(url), 0);
            && (Normalize(url) != "" <==> m.Some?)
            && (m.Some? ==> Parse(url) == MatchedShare(Strip(url), m.value.0))
  {
    hide ParseClean, SchemeEnd, HeadEnd, ParamEnd, MatchedShare;
    if Normalize(url) != "" {
      var head, share, tail := NormalShape(url);
      hide Normalize, ShareEnd;
      ShapeParses(Normalize(url), head, share, tail);
    }
  }

  /** What the parser returns for a link it recognises is a share, and the canonical URL is
      that share printed. */
  lemma CanonicalPrints(url: string)
    ensures Normalize(url) != "" ==>
              && ShareOk(Parse(url)) && Canonical(url) == Print(Parse(url))
              && Normalize(Normalize(url)) == Normalize(url) && IsShareUrl(Normalize(url))
              && Parse(Normalize(url)) == Parse(url)
  {
    hide Normalize, ParseClean, ShareEnd, SchemeEnd, HeadEnd, ParamEnd, Print;
    if Normalize(url) != "" {
      var head, share, tail := NormalShape(url);
      var g := Normalize(url);
      ShapeParses(g, head, share, tail);
      ShapeNormal(g, head, share, tail);
      ShapeMatches(g, head, share, tail);
    }
  }

  /** `canonical_115_url` is idempotent on every text. */
  lemma CanonicalIdempotent(url: string)
    ensures Canonical(Canonical(url)) == Canonical(url)
  {
    CanonicalPrints(url);
    if Normalize(url) != "" {
      ParsePrint(Parse(url));
    }
  }

  /** Canonicalising a recognised link keeps its share code and its receive code. */
  lemma CanonicalKeepsShare(url: string)
    ensures Parse(Canonical(url)) == Parse(url)
  {
    CanonicalPrints(url);
    if Normalize(url) != "" {
      ParsePrint(Parse(url));
    }
  }

  predicate HasMagnet(url: string) { SearchMagnet(Strip(url), 0).Some? }

  lemma PrintHasNoMagnet(share: Share)
    requires ShareOk(share)
    ensures SearchMagnet(Print(share), 0).None?
  {
    var g := Print(share);
    forall j | 0 <= j < |g| && j != 5 ensures g[j] != ':' {
      OnlyColon(share, j);
    }
    forall k | 0 <= k < |g| ensures MagnetAt(g, k).None? {
      assert k == 1 && k < |g| ==> g[k] == PREFIX[1];
      NoLit(g, k, "btih:", if k == 1 then 0 else 4);
      NoLit(g, k, "xt=urn:btih:", 6);
    }
  }

  lemma NoLit(s: string, i: nat, p: string, d: nat)
    requires d < |p| && (i + |p| <= |s| ==> Fold(s[i + d]) != p[d])
    ensures !LitAt(s, i, p)
  {
  }

  lemma OnlyColon(share: Share, j: nat)
    requires ShareOk(share) && j < |Print(share)| && j != 5
    ensures Print(share)[j] != ':'
  {
    var n := |PREFIX + share.code|;
    if j < |PREFIX| {
      assert Print(share)[j] == PREFIX[j];
    } else if j < n {
      assert Print(share)[j] == share.code[j - |PREFIX|];
    } else if j < n + 10 {
      assert Print(share)[j] == "?password="[j - n];
    } else {
      assert Print(share)[j] == share.receive.value[j - n - 10];
    }
  }

  lemma NormalStrip(url: string)
    ensures Normalize(Strip(url)) == Normalize(url)
    ensures Strip(url) == "" ==> Normalize(url) == ""
  {
    hide SearchShare, Bare, Strip;
    StripIdempotent(url);
    SearchEmpty();
  }

  lemma SearchEmpty()
    ensures SearchShare("", 0).None?
  {
  }

  /** A URL that is recognised as a share and carries no magnet hash. */
  predicate IsShareKeyed(url: string) { !HasMagnet(url) && Normalize(url) != "" }

  /** The key of such a URL is its share, printed. */
  lemma ShareKey(url: string)
    ensures IsShareKeyed(url) ==> DedupeKey(url) == Some(Key("115", Print(Parse(url))))
  {
    hide Strip, Normalize, Parse, Print, Canonical, IsShareUrl, SearchMagnet;
    StripIdempotent(url);
    NormalStrip(url);
    CanonicalPrints(url);
    CanonicalPrints(Normalize(url));
  }

  /** Two share URLs are duplicates exactly when both codes agree. */
  lemma KeysAgreeExactly(u: string, w: string)
    ensures IsShareKeyed(u) && IsShareKeyed(w) ==>
              (DedupeKey(u) == DedupeKey(w) <==> Parse(u) == Parse(w))
  {
    hide Normalize, Parse, Print, Canonical, IsShareUrl, HasMagnet, DedupeKey;
    if IsShareKeyed(u) && IsShareKeyed(w) {
      ShareKey(u);
      ShareKey(w);
      CanonicalPrints(u);
      CanonicalPrints(w);
      ParsePrint(Parse(u));
      ParsePrint(Parse(w));
    }
  }

  /** A printed share is its own key. */
  lemma PrintKey(share: Share)
    requires ShareOk(share)
    ensures DedupeKey(Print(share)) == Some(Key("115", Print(share)))
  {
    hide Normalize, Parse, ShareEnd;
    var c := Print(share);
    ParsePrint(share);
    PrintHasNoMagnet(share);
    PrintEnd(share);
    assert c[0] == 'h';
    StripTight(c);
    ShareKey(c);
  }

  /** Looking a key's value up as a URL finds nothing but URLs of that key. */
  lemma KeyOfValue(url: string)
    ensures DedupeKey(url).Some? && DedupeKey(url).value.kind != "magnet" ==>
              DedupeKey(DedupeKey(url).value.value) == DedupeKey(url)
  {
    hide Strip, Normalize, Parse, Print, Canonical, IsShareUrl, SearchMagnet;
    StripIdempotent(url);
    NormalStrip(url);
    if Normalize(url) != "" {
      ShareKey(url);
      CanonicalPrints(url);
      PrintKey(Parse(url));
    }
  }

  lemma PrintEnd(share: Share)
    requires ShareOk(share)
    ensures !IsSpace(Print(share)[|Print(share)| - 1])
  {
    var last := Print(share)[|Print(share)| - 1];
    if share.receive.Some? {
      assert last == share.receive.value[|share.receive.value| - 1];
    } else {
      assert last == share.code[|share.code| - 1];
    }
  }
}

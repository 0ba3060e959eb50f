/**
 The string-aware CSS minifier.  Its meaning is given by a token scanner: quoted strings,
 single characters, and gaps (a comment or a run of whitespace).  The loop is proved to
 produce the rendering of the squeezed token stream, and the laws are about that stream.
 */
module CssMinifier {
  import opened PyText

  datatype Tok = Ch(c: char) | Str(s: string) | Gap

  predicate IsQuote(c: char) { c == '"' || c == '\'' }

  // --------------------------------------------------------------- scanner

  predicate OpensComment(t: string) { |t| >= 2 && t[0] == '/' && t[1] == '*' }

  /** Position of the first `*` `/` pair at or after `i`, or the length. */
  function FindClose(t: string, i: nat): (e: nat)
    requires i <= |t|
    ensures i <= e <= |t|
    decreases |t| - i
  {
    if i + 1 >= |t| then |t|
    else if t[i] == '*' && t[i + 1] == '/' then i
    else FindClose(t, i + 1)
  }

  function CommentLen(t: string): (n: nat)
    requires OpensComment(t)
    ensures 2 <= n <= |t|
  {
    if FindClose(t, 2) + 2 <= |t| then FindClose(t, 2) + 2 else |t|
  }

  /** Scans a string body from `j`: where it ends, and whether by its quote.  A backslash takes
      the next character with it, even beyond the end. */
  function Body(t: string, j: nat, q: char): (r: (nat, bool))
    ensures r.0 <= |t| && (j <= |t| ==> j <= r.0) && (r.1 ==> j < r.0 && t[r.0 - 1] == q) && (!r.1 ==> r.0 == |t|)
    decreases |t| - j
  {
    if j >= |t| then (|t|, false)
    else if t[j] == '\\' then Body(t, j + 2, q)
    else if t[j] == q then (j + 1, true)
    else Body(t, j + 1, q)
  }

  function SpaceLen(t: string): (n: nat)
    ensures n <= |t| && (n < |t| ==> !IsSpace(t[n])) && (t != "" && IsSpace(t[0]) ==> n > 0)
  {
    if t != "" && IsSpace(t[0]) then 1 + SpaceLen(t[1..]) else 0
  }

  /** Length and token of the first piece of a non-empty text. */
  function First(t: string): (r: (nat, Tok))
    requires t != ""
    ensures 1 <= r.0 <= |t|
  {
    if OpensComment(t) then (CommentLen(t), Gap)
    else if IsQuote(t[0]) then (Body(t, 1, t[0]).0, Str(t[..Body(t, 1, t[0]).0]))
    else if IsSpace(t[0]) then (SpaceLen(t), Gap)
    else (1, Ch(t[0]))
  }

  function Tokens(t: string): seq<Tok> {
    if t == "" then [] else [First(t).1] + Tokens(t[First(t).0..])
  }

  // ------------------------------------------------------ squeezing, rendering

  /** Keeps one gap per run of gaps, and none while `drop` holds. */
  function Squeeze(drop: bool, ts: seq<Tok>): seq<Tok>
    decreases |ts|
  {
    if ts == [] then []
    else if !ts[0].Gap? then [ts[0]] + Squeeze(false, ts[1..])
    else if drop then Squeeze(true, ts[1..])
    else [Gap] + Squeeze(true, ts[1..])
  }

  function Core(ts: seq<Tok>): seq<Tok> {
    if ts != [] && ts[|ts| - 1].Gap? then ts[..|ts| - 1] else ts
  }

  /** The token stream of a text: gaps squeezed, outer gaps dropped. */
  function Stream(t: string): seq<Tok> { Core(Squeeze(true, Tokens(t))) }

  function TextOf(k: Tok): (s: string) {
    match k
    case Ch(c) => [c]
    case Str(s) => s
    case Gap => " "
  }

  function Render(ts: seq<Tok>): string {
    if ts == [] then "" else TextOf(ts[0]) + Render(ts[1..])
  }

  /** What the minifier computes. */
  function Minified(t: string): string { Strip(Render(Squeeze(true, Tokens(t)))) }

  // ------------------------------------------------------------ the program

  predicate AllSpace(s: string) { s != "" && forall k :: 0 <= k < |s| ==> IsSpace(s[k]) }

  function Join(pieces: seq<string>): string {
    if pieces == [] then "" else pieces[0] + Join(pieces[1..])
  }

  function Texts(ts: seq<Tok>): seq<string> { seq(|ts|, i requires 0 <= i < |ts| => TextOf(ts[i])) }

  predicate AtGap(ts: seq<Tok>) { ts == [] || ts[|ts| - 1].Gap? }

  /** The output tokens after one more piece. */
  function Extend(done: seq<Tok>, tok: Tok): seq<Tok> {
    if tok.Gap? && AtGap(done) then done else done + [tok]
  }

  /** Only gaps render as whitespace. */
  predicate SpacesAreGaps(ts: seq<Tok>) { forall k :: 0 <= k < |ts| ==> (AllSpace(TextOf(ts[k])) <==> ts[k].Gap?) }

  lemma ExtendSqueeze(done: seq<Tok>, tok: Tok, rest: seq<Tok>)
    ensures Extend(done, tok) + Squeeze(AtGap(Extend(done, tok)), rest) == done + Squeeze(AtGap(done), [tok] + rest)
  {
    assert ([tok] + rest)[1..] == rest;
  }

  lemma FirstSpaces(t: string)
    requires t != ""
    ensures AllSpace(TextOf(First(t).1)) <==> First(t).1.Gap?
  {
    var k := First(t).1;
    if k.Str? {
      assert k.s[0] == t[0];
    } else if k.Ch? {
      assert TextOf(k)[0] == t[0];
    }
  }

  lemma CloseShift(t: string, i: nat, k: nat)
    requires i + k <= |t|
    ensures FindClose(t, i + k) == i + FindClose(t[i..], k)
    decreases |t| - k
  {
    if i + k + 1 < |t| {
      CloseShift(t, i, k + 1);
    }
  }

  lemma BodyShift(t: string, i: nat, k: nat, q: char)
    requires i <= |t|
    ensures Body(t, i + k, q) == (i + Body(t[i..], k, q).0, Body(t[i..], k, q).1)
    decreases |t| - k
  {
    if i + k < |t| {
      assert t[i..][k] == t[i + k];
      if t[i + k] == '\\' {
        BodyShift(t, i, k + 2, q);
      } else if t[i + k] != q {
        BodyShift(t, i, k + 1, q);
      }
    }
  }

  lemma JoinTexts(ts: seq<Tok>)
    ensures Join(Texts(ts)) == Render(ts)
  {
    if ts != [] {
      assert Texts(ts)[1..] == Texts(ts[1..]);
    }
  }

  lemma TextsExtend(done: seq<Tok>, tok: Tok)
    ensures Texts(Extend(done, tok)) == if tok.Gap? && AtGap(done) then Texts(done) else Texts(done) + [TextOf(tok)]
  {
  }

  /** One round of the loop, in terms of tokens. */
  lemma Advance(text: string, i: nat, done: seq<Tok>)
    requires i < |text| && SpacesAreGaps(done)
    ensures var first := First(text[i..]);
            && SpacesAreGaps(Extend(done, first.1))
            && Extend(done, first.1) + Squeeze(AtGap(Extend(done, first.1)), Tokens(text[i + first.0..]))
                 == done + Squeeze(AtGap(done), Tokens(text[i..]))
            && Texts(Extend(done, first.1))
              == (if first.1.Gap? && AtGap(done) then Texts(done) else Texts(done) + [TextOf(first.1)])
  {
    var rest := text[i..];
    var first := First(rest);
    assert rest[first.0..] == text[i + first.0..];
    ExtendSqueeze(done, first.1, Tokens(rest[first.0..]));
    FirstSpaces(rest);
    TextsExtend(done, first.1);
  }

  /** The branches of the loop, as the pieces they take. */
  lemma Branches(text: string, i: nat)
    requires i < |text|
    ensures var c := text[i]; var first := First(text[i..]);
            var end := if i + 2 <= |text| then FindClose(text, i + 2) else |text|;
            first == if c == '/' && i + 1 < |text| && text[i + 1] == '*'
                     then ((if end + 2 <= |text| then end + 2 else |text|) - i, Gap)
                     else if IsQuote(c) then (Body(text, i + 1, c).0 - i, Str(text[i..Body(text, i + 1, c).0]))
                     else if IsSpace(c) then (SpaceLen(text[i..]), Gap)
                     else (1, Ch(c))
  {
    var rest := text[i..];
    if i + 2 <= |text| {
      CloseShift(text, i, 2);
    }
    BodyShift(text, i, 1, text[i]);
    var b := Body(rest, 1, rest[0]).0;
    assert rest[..b] == text[i..i + b];
  }

  lemma GapTest(done: seq<Tok>)
    requires SpacesAreGaps(done)
    ensures AtGap(done) <==> !(Texts(done) != [] && !AllSpace(Texts(done)[|Texts(done)| - 1]))
  {
  }

  /** `_minify_css`. */
  method MinifyCss(text: string) returns (r: string)
    ensures r == Minified(text)
  {
    hide Squeeze, Tokens, Extend, Minified, Render, First, Texts, AllSpace, SpacesAreGaps, AtGap, FindClose, Body,
      SpaceLen;
    var out: seq<string> := [];
    var i, n := 0, |text|;
    ghost var done: seq<Tok> := [];
    MinifyStart(text);
    while i < n
      invariant 0 <= i <= n == |text|
      invariant out == Texts(done) && SpacesAreGaps(done)
      invariant done + Squeeze(AtGap(done), Tokens(text[i..])) == Squeeze(true, Tokens(text))
      decreases n - i
    {
      Advance(text, i, done);
      Branches(text, i);
      GapTest(done);
      done := Extend(done, First(text[i..]).1);
      if text[i] == '/' && i + 1 < n && text[i + 1] == '*' {
        var end := FindClose(text, i + 2);
        i := if end + 2 <= n then end + 2 else n;
        if out != [] && !AllSpace(out[|out| - 1]) {
          out := out + [" "];
        }
      } else if IsQuote(text[i]) {
        var j := StringEnd(text, i);
        out := out + [text[i..j]];
        i := j;
      } else if IsSpace(text[i]) {
        var j := SpaceEnd(text, i);
        if out != [] && !AllSpace(out[|out| - 1]) {
          out := out + [" "];
        }
        i := j;
      } else {
        out := out + [[text[i]]];
        i := i + 1;
      }
    }
    MinifyEnd(text, done);
    r := Strip(Join(out));
  }

  lemma MinifyStart(text: string)
    ensures [] == Texts([]) && SpacesAreGaps([])
    ensures [] + Squeeze(AtGap([]), Tokens(text[0..])) == Squeeze(true, Tokens(text))
  {
    assert text[0..] == text;
  }

  lemma MinifyEnd(text: string, done: seq<Tok>)
    requires done + Squeeze(AtGap(done), Tokens(text[|text|..])) == Squeeze(true, Tokens(text))
    ensures Strip(Join(Texts(done))) == Minified(text)
  {
    JoinTexts(done);
    assert text[|text|..] == "" && Tokens("") == [];
    assert Squeeze(AtGap(done), []) == [];
    hide Squeeze, Tokens, Strip, Join, Render, Texts;
    assert done + [] == done;
  }

  /** The inner loop over a quoted string; a backslash at the very end stops at the end. */
  method StringEnd(text: string, i: nat) returns (end: nat)
    requires i < |text|
    ensures end == Body(text, i + 1, text[i]).0
  {
    var quote, j := text[i], i + 1;
    while j < |text|
      invariant i < j
      invariant Body(text, j, quote) == Body(text, i + 1, quote)
      decreases |text| - j
    {
      if text[j] == '\\' {
        j := j + 2;
        continue;
      }
      if text[j] == quote {
        return j + 1;
      }
      j := j + 1;
    }
    return |text|;
  }

  /** The inner loop over a run of whitespace. */
  method SpaceEnd(text: string, i: nat) returns (end: nat)
    requires i < |text|
    ensures end == i + SpaceLen(text[i..])
  {
    end := i;
    while end < |text| && IsSpace(text[end])
      invariant i <= end <= |text|
      invariant SpaceLen(text[i..]) == end - i + SpaceLen(text[end..])
    {
      assert text[end..][1..] == text[end + 1..];
      end := end + 1;
    }
  }

  // --------------------------------------------------- well-formed streams

  /** `s` is a whole quoted string: closed by its last character, or open to the end of the text. */
  predicate WholeString(s: string, last: bool) {
    s != "" && IsQuote(s[0]) && Body(s, 1, s[0]).0 == |s| && (Body(s, 1, s[0]).1 || last)
  }

  predicate HeadOk(k: Tok, rest: seq<Tok>) {
    match k
    case Ch(c) => !IsSpace(c) && !IsQuote(c) && !(c == '/' && rest != [] && rest[0] == Ch('*'))
    case Str(s) => WholeString(s, rest == [])
    case Gap => rest == [] || !rest[0].Gap?
  }

  predicate WellFormed(ts: seq<Tok>) { ts == [] || (HeadOk(ts[0], ts[1..]) && WellFormed(ts[1..])) }

  /** What any text scans to: well-formed except that gaps may follow each other. */
  predicate RawOk(ts: seq<Tok>) { ts == [] || ((ts[0].Gap? || HeadOk(ts[0], ts[1..])) && RawOk(ts[1..])) }

  lemma BodyClosed(t: string, j: nat, q: char, rest: string)
    requires Body(t, j, q).1
    ensures Body(t[..Body(t, j, q).0] + rest, j, q) == (Body(t, j, q).0, true)
    decreases |t| - j
  {
    var e := Body(t, j, q).0;
    var u := t[..e] + rest;
    assert forall k :: 0 <= k < e ==> u[k] == t[k];
    if t[j] == '\\' {
      BodyClosed(t, j + 2, q, rest);
    } else if t[j] != q {
      BodyClosed(t, j + 1, q, rest);
    }
  }

  lemma BodyOpenPrefix(t: string, j: nat, q: char, n: nat)
    requires n <= |t| && !Body(t, j, q).1
    ensures Body(t[..n], j, q) == (n, false)
    decreases |t| - j
  {
    if j < n {
      assert t[..n][j] == t[j];
      if t[j] == '\\' {
        BodyOpenPrefix(t, j + 2, q, n);
      } else {
        BodyOpenPrefix(t, j + 1, q, n);
      }
    }
  }

  lemma FirstString(t: string)
    requires t != "" && !OpensComment(t) && IsQuote(t[0])
    ensures var e := Body(t, 1, t[0]).0; WholeString(t[..e], e == |t|)
  {
    var e := Body(t, 1, t[0]).0;
    if Body(t, 1, t[0]).1 {
      BodyClosed(t, 1, t[0], "");
      assert t[..e] + "" == t[..e];
    } else {
      BodyOpenPrefix(t, 1, t[0], e);
    }
  }

  lemma {:induction false} TokensRaw(t: string)
    ensures RawOk(Tokens(t))
    decreases |t|
  {
    if t != "" {
      var first := First(t);
      var rest := t[first.0..];
      TokensRaw(rest);
      assert Tokens(t)[1..] == Tokens(rest);
      if first.1.Str? {
        FirstString(t);
      } else if first.1.Ch? && rest != "" {
        assert rest[0] == t[1];
        assert Tokens(rest)[0] == First(rest).1;
      }
    }
  }

  lemma {:induction false} SqueezeWellFormed(drop: bool, ts: seq<Tok>)
    requires RawOk(ts)
    ensures WellFormed(Squeeze(drop, ts))
    ensures drop && Squeeze(drop, ts) != [] ==> !Squeeze(drop, ts)[0].Gap?
    ensures ts == [] ==> Squeeze(drop, ts) == []
    ensures ts != [] && Squeeze(drop, ts) != [] && !Squeeze(drop, ts)[0].Gap? && !drop ==> Squeeze(drop, ts)[0] == ts[0]
    decreases |ts|
  {
    if ts != [] {
      SqueezeWellFormed(ts[0].Gap?, ts[1..]);
      if !(ts[0].Gap? && drop) {
        assert Squeeze(drop, ts)[1..] == Squeeze(ts[0].Gap?, ts[1..]);
      }
    }
  }

  lemma {:induction false} PrefixWellFormed(ts: seq<Tok>, n: nat)
    requires n <= |ts| && WellFormed(ts)
    ensures WellFormed(ts[..n])
    decreases |ts|
  {
    if n > 0 {
      PrefixWellFormed(ts[1..], n - 1);
      assert ts[..n][1..] == ts[1..][..n - 1];
      assert n > 1 ==> ts[..n][1..][0] == ts[1..][0];
    }
  }

  // ---------------------------------------------- scanning what was rendered

  lemma RenderFirst(ts: seq<Tok>)
    requires WellFormed(ts) && ts != []
    ensures Render(ts) != "" && Render(ts)[0] == TextOf(ts[0])[0]
    ensures IsSpace(Render(ts)[0]) <==> ts[0].Gap?
  {
  }

  lemma FirstIsChar(t: string, c: char)
    requires t != "" && t[0] == c && !IsSpace(c) && !IsQuote(c)
    requires c == '/' && |t| > 1 ==> t[1] != '*'
    ensures First(t) == (1, Ch(c))
  {
  }

  lemma FirstIsString(t: string, s: string, rest: string)
    requires t == s + rest && WholeString(s, rest == "")
    ensures t != "" && First(t) == (|s|, Str(s))
  {
    assert t[..|s|] == s;
    if Body(s, 1, s[0]).1 {
      BodyClosed(s, 1, s[0], rest);
      assert s[..|s|] + rest == t;
    } else {
      assert t == s;
    }
  }

  lemma FirstIsGap(t: string)
    requires |t| > 1 && t[0] == ' ' && !IsSpace(t[1])
    ensures First(t) == (1, Gap)
  {
    assert t[1..][0] == t[1];
    assert SpaceLen(t[1..]) == 0;
  }

  /** The first token of a rendering is read back, whatever follows it. */
  lemma FirstOfRender(ts: seq<Tok>)
    requires WellFormed(ts) && ts != [] && !ts[|ts| - 1].Gap?
    ensures Render(ts) != "" && First(Render(ts)) == (|TextOf(ts[0])|, ts[0])
  {
    var t, rest := Render(ts), Render(ts[1..]);
    RenderFirst(ts);
    if ts[1..] != [] {
      RenderFirst(ts[1..]);
    }
    hide First, IsSpace, WellFormed, Body;
    match ts[0]
    case Ch(c) => FirstIsChar(t, c);
    case Str(s) =>
      assert ts[1..] == [] <==> rest == "";
      FirstIsString(t, s, rest);
    case Gap =>
      assert t[1] == rest[0];
      FirstIsGap(t);
  }

  /** Scanning undoes rendering on every well-formed stream that does not end in a gap. */
  lemma {:induction false} TokensOfRender(ts: seq<Tok>)
    requires WellFormed(ts) && (ts == [] || !ts[|ts| - 1].Gap?)
    ensures Tokens(Render(ts)) == ts
    decreases |ts|
  {
    hide *;
    if ts == [] {
      TokensNone();
    } else {
      TailOk(ts);
      TokensOfRender(ts[1..]);
      TokensNext(ts);
    }
  }

  lemma TokensNone()
    ensures Tokens(Render([])) == []
  {
  }

  lemma TailOk(ts: seq<Tok>)
    requires WellFormed(ts) && ts != [] && !ts[|ts| - 1].Gap?
    ensures WellFormed(ts[1..]) && (ts[1..] == [] || !ts[1..][|ts[1..]| - 1].Gap?)
  {
    hide HeadOk;
  }

  lemma TokensNext(ts: seq<Tok>)
    requires WellFormed(ts) && ts != [] && !ts[|ts| - 1].Gap? && Tokens(Render(ts[1..])) == ts[1..]
    ensures Tokens(Render(ts)) == ts
  {
    hide *;
    FirstOfRender(ts);
    RenderRest(ts);
    TokensStep(Render(ts));
    assert ts == [ts[0]] + ts[1..];
  }

  lemma RenderRest(ts: seq<Tok>)
    requires ts != []
    ensures |TextOf(ts[0])| <= |Render(ts)| && Render(ts)[|TextOf(ts[0])|..] == Render(ts[1..])
  {
  }

  lemma TokensStep(t: string)
    requires t != ""
    ensures Tokens(t) == [First(t).1] + Tokens(t[First(t).0..])
  {
    hide First;
  }

  lemma {:induction false} SqueezeSqueezed(drop: bool, ts: seq<Tok>)
    requires WellFormed(ts) && (drop && ts != [] ==> !ts[0].Gap?)
    ensures Squeeze(drop, ts) == ts
    decreases |ts|
  {
    if ts != [] {
      SqueezeSqueezed(ts[0].Gap?, ts[1..]);
    }
  }

  // ---------------------------------------------------- the final strip

  /** The last token, if it is a string, without trailing whitespace. */
  function Trim(ts: seq<Tok>): seq<Tok> {
    if ts != [] && ts[|ts| - 1].Str? then ts[..|ts| - 1] + [Str(RStrip(ts[|ts| - 1].s))] else ts
  }

  lemma {:induction false} RenderAppend(ts: seq<Tok>, k: Tok)
    ensures Render(ts + [k]) == Render(ts) + TextOf(k)
    decreases |ts|
  {
    if ts == [] {
      assert Render([k][1..]) == "";
    } else {
      assert (ts + [k])[1..] == ts[1..] + [k];
      RenderAppend(ts[1..], k);
    }
  }

  lemma {:induction false} RStripAppend(x: string, s: string)
    requires RStrip(s) != ""
    ensures RStrip(x + s) == x + RStrip(s)
    decreases |s|
  {
    assert (x + s)[|x + s| - 1] == s[|s| - 1];
    if IsSpace(s[|s| - 1]) {
      assert (x + s)[..|x + s| - 1] == x + s[..|s| - 1];
      RStripAppend(x, s[..|s| - 1]);
    }
  }

  lemma {:induction false} At(ts: seq<Tok>, k: nat)
    requires WellFormed(ts) && k < |ts|
    ensures HeadOk(ts[k], ts[k + 1..])
    decreases k
  {
    if k > 0 {
      At(ts[1..], k - 1);
      assert ts[1..][k..] == ts[k + 1..];
    }
  }

  lemma {:induction false} RStripKeeps(s: string, k: nat)
    requires k < |s| && !IsSpace(s[k])
    ensures |RStrip(s)| > k
    decreases |s|
  {
    if IsSpace(s[|s| - 1]) {
      RStripKeeps(s[..|s| - 1], k);
    }
  }

  lemma StringTrim(s: string, last: bool)
    requires WholeString(s, last)
    ensures WholeString(RStrip(s), true) && RStrip(s)[0] == s[0] && RStrip(RStrip(s)) == RStrip(s)
    ensures !last ==> RStrip(s) == s
    ensures RStrip(s) == s <==> !IsSpace(s[|s| - 1])
  {
    RStripKeeps(s, 0);
    if !Body(s, 1, s[0]).1 {
      BodyOpenPrefix(s, 1, s[0], |RStrip(s)|);
    }
  }

  /** A string token that ends in whitespace: only an unclosed one can. */
  predicate BlankEnd(k: Tok) { k.Str? && k.s != "" && IsSpace(k.s[|k.s| - 1]) }

  /** A stream that starts and ends with a visible token. */
  predicate Tight(ts: seq<Tok>) { WellFormed(ts) && (ts != [] ==> !ts[0].Gap? && !ts[|ts| - 1].Gap?) }

  lemma CoreTight(ts: seq<Tok>)
    requires WellFormed(ts) && (ts != [] ==> !ts[0].Gap?)
    ensures Tight(Core(ts))
    ensures Core(ts) != ts ==> Trim(Core(ts)) == Core(ts) && ts == Core(ts) + [Gap] && Core(ts) != []
  {
    var n := |ts|;
    if ts != [] && ts[n - 1].Gap? {
      PrefixWellFormed(ts, n - 1);
      BeforeGap(ts);
      hide WellFormed, RStrip, Trim;
      var core := ts[..n - 1];
      assert core[n - 2] == ts[n - 2];
      assert ts == core + [Gap];
      TrimKeeps(core);
    }
  }

  lemma TrimKeeps(ts: seq<Tok>)
    requires ts != [] && (ts[|ts| - 1].Str? ==> RStrip(ts[|ts| - 1].s) == ts[|ts| - 1].s)
    ensures Trim(ts) == ts
  {
    hide RStrip;
    assert ts[..|ts| - 1] + [ts[|ts| - 1]] == ts;
  }

  lemma BeforeGap(ts: seq<Tok>)
    requires WellFormed(ts) && |ts| > 1 && ts[|ts| - 1].Gap?
    ensures var k := ts[|ts| - 2]; !k.Gap? && (k.Str? ==> RStrip(k.s) == k.s)
  {
    var n := |ts|;
    At(ts, n - 2);
    hide WellFormed, WholeString;
    assert ts[n - 1..][0] == Gap;
    if ts[n - 2].Str? {
      StringTrim(ts[n - 2].s, false);
    }
  }

  lemma {:induction false} TrimTight(ts: seq<Tok>)
    requires Tight(ts)
    ensures Tight(Trim(ts)) && Trim(Trim(ts)) == Trim(ts)
    ensures Trim(ts) == ts <==> !(ts != [] && BlankEnd(ts[|ts| - 1]))
  {
    if ts != [] && ts[|ts| - 1].Str? {
      At(ts, |ts| - 1);
      var s := ts[|ts| - 1].s;
      StringTrim(s, true);
      ReplaceLast(ts, RStrip(s));
      hide WellFormed, RStrip, WholeString;
      StringReplaced(ts, s, RStrip(s));
      TrimKeeps(ts[..|ts| - 1] + [Str(RStrip(s))]);
    }
  }

  lemma StringReplaced(ts: seq<Tok>, s: string, t: string)
    requires ts != [] && ts[|ts| - 1] == Str(s) && !ts[0].Gap?
    ensures var u := ts[..|ts| - 1] + [Str(t)];
            |u| == |ts| && u[|u| - 1] == Str(t) && !u[0].Gap? && (u == ts <==> s == t)
  {
    assert ts == ts[..|ts| - 1] + [ts[|ts| - 1]];
  }

  lemma {:induction false} ReplaceLast(ts: seq<Tok>, s: string)
    requires WellFormed(ts) && ts != [] && ts[|ts| - 1].Str? && WholeString(s, true)
    ensures WellFormed(ts[..|ts| - 1] + [Str(s)])
    decreases |ts|
  {
    var u := ts[..|ts| - 1] + [Str(s)];
    if |ts| > 1 {
      ReplaceLast(ts[1..], s);
      assert u[1..] == ts[1..][..|ts| - 2] + [Str(s)];
      assert u[0] == ts[0];
      assert |ts| > 2 ==> u[1..][0] == ts[1..][0];
    } else {
      assert u == [Str(s)] && u[1..] == [];
    }
  }

  lemma TightStrip(ts: seq<Tok>)
    requires Tight(ts)
    ensures RStrip(Render(ts)) == Render(Trim(ts)) && Strip(Render(ts)) == Render(Trim(ts))
  {
    if ts != [] {
      var init, k := ts[..|ts| - 1], ts[|ts| - 1];
      assert ts == init + [k];
      RenderAppend(init, k);
      At(ts, |ts| - 1);
      TrimTight(ts);
      if k.Str? {
        StringTrim(k.s, true);
        RStripAppend(Render(init), k.s);
        RenderAppend(init, Str(RStrip(k.s)));
      } else {
        RStripAppend(Render(init), TextOf(k));
      }
      RenderFirst(Trim(ts));
    }
  }

  // ------------------------------------------------------------ main results

  lemma StreamTight(t: string)
    ensures Tight(Stream(t))
  {
    TokensRaw(t);
    SqueezeWellFormed(true, Tokens(t));
    CoreTight(Squeeze(true, Tokens(t)));
  }

  /** The minifier writes out the token stream, with the last string trimmed. */
  lemma MinifiedIs(t: string)
    ensures Minified(t) == Render(Trim(Stream(t)))
  {
    var w := Squeeze(true, Tokens(t));
    TokensRaw(t);
    SqueezeWellFormed(true, Tokens(t));
    CoreTight(w);
    hide Squeeze, Tokens, WellFormed, Render, Trim, Tight, Strip;
    TightStrip(Core(w));
    if Core(w) != w {
      RenderGap(Core(w));
    }
  }

  /** A final gap is stripped. */
  lemma RenderGap(core: seq<Tok>)
    ensures Strip(Render(core + [Gap])) == Strip(Render(core))
  {
    RenderAppend(core, Gap);
    var x := Render(core);
    hide Render;
    assert (x + " ")[..|x + " "| - 1] == x;
  }

  lemma StreamOfTight(ts: seq<Tok>)
    requires Tight(ts)
    ensures Stream(Render(ts)) == ts
  {
    TokensOfRender(ts);
    SqueezeSqueezed(true, ts);
  }

  /** The text ends inside a string that was never closed, and in whitespace. */
  predicate EndsInOpenBlank(t: string) {
    Tokens(t) != [] && BlankEnd(Tokens(t)[|Tokens(t)| - 1])
  }

  lemma {:induction false} SqueezeLast(drop: bool, ts: seq<Tok>)
    requires ts != []
    ensures !ts[|ts| - 1].Gap? ==> Squeeze(drop, ts) != [] && Squeeze(drop, ts)[|Squeeze(drop, ts)| - 1] == ts[|ts| - 1]
    ensures ts[|ts| - 1].Gap? && Squeeze(drop, ts) != [] ==> Squeeze(drop, ts)[|Squeeze(drop, ts)| - 1].Gap?
    decreases |ts|
  {
    if |ts| > 1 {
      SqueezeLast(ts[0].Gap?, ts[1..]);
      if ts[|ts| - 1].Gap? && !ts[0].Gap? {
        GapStays(ts[1..]);
      }
    }
  }

  lemma {:induction false} GapStays(ts: seq<Tok>)
    requires ts != []
    ensures Squeeze(false, ts) != []
  {
  }

  lemma BlankEndSeen(t: string)
    ensures EndsInOpenBlank(t) <==> Stream(t) != [] && BlankEnd(Stream(t)[|Stream(t)| - 1])
  {
    var ts := Tokens(t);
    var w := Squeeze(true, ts);
    TokensRaw(t);
    SqueezeWellFormed(true, ts);
    CoreTight(w);
    TrimTight(Core(w));
    if ts != [] {
      SqueezeLast(true, ts);
    }
  }

  /** The stream of the output is the stream of the input with its last string trimmed. */
  lemma StreamOfMinified(t: string)
    ensures Stream(Minified(t)) == Trim(Stream(t))
  {
    MinifiedIs(t);
    StreamTight(t);
    TrimTight(Stream(t));
    StreamOfTight(Trim(Stream(t)));
  }

  /** The minifier preserves the token stream, strings byte for byte, exactly on the texts that
      do not end in a blank inside an unclosed string. */
  lemma StreamPreservedExactly(t: string)
    ensures Stream(Minified(t)) == Stream(t) <==> !EndsInOpenBlank(t)
  {
    StreamOfMinified(t);
    StreamTight(t);
    TrimTight(Stream(t));
    BlankEndSeen(t);
  }

  lemma OpenBlankTokens()
    ensures Tokens("\" ") == [Str("\" ")] && EndsInOpenBlank("\" ") && Stream("\" ") == [Str("\" ")]
  {
    var t := "\" ";
    assert Body(t, 1, '"') == (2, false);
    assert t[..2] == t && t[2..] == "";
    assert First(t) == (2, Str(t));
    hide First, Body;
    assert Tokens("") == [] && Tokens(t) == [Str(t)] + Tokens(t[2..]);
    assert [Str(t)][1..] == [];
  }

  /** Such texts exist: a quote and a blank, of which only the quote is left. */
  lemma OpenBlankTrimmed()
    ensures EndsInOpenBlank("\" ") && Minified("\" ") == "\"" && Stream(Minified("\" ")) != Stream("\" ")
  {
    var t := "\" ";
    OpenBlankTokens();
    MinifiedIs(t);
    StreamPreservedExactly(t);
    hide Tokens, Stream, Minified, EndsInOpenBlank;
    assert t[..1] == "\"" && RStrip(t) == "\"";
    assert Trim([Str(t)]) == [Str("\"")];
    assert [Str("\"")][1..] == [] && Render([Str("\"")]) == "\"" + "";
  }

  /** Minifying again changes nothing, on every text. */
  lemma MinifyIdempotent(t: string)
    ensures Minified(Minified(t)) == Minified(t)
  {
    MinifiedIs(t);
    MinifiedIs(Minified(t));
    StreamOfMinified(t);
    StreamTight(t);
    TrimTight(Stream(t));
  }

  lemma {:induction false} SqueezeShort(drop: bool, t: string)
    ensures |Render(Squeeze(drop, Tokens(t)))| <= |t|
    decreases |t|
  {
    if t != "" {
      var first := First(t);
      var rest := t[first.0..];
      assert Tokens(t)[1..] == Tokens(rest);
      SqueezeShort(first.1.Gap?, rest);
      var out := Squeeze(drop, Tokens(t));
      if !(first.1.Gap? && drop) {
        assert out[1..] == Squeeze(first.1.Gap?, Tokens(rest));
      }
    }
  }

  /** The output is never longer than the input. */
  lemma MinifyNeverLonger(t: string)
    ensures |Minified(t)| <= |t|
  {
    SqueezeShort(true, t);
  }
}

/** What the scanner of the CSS minifier takes as one piece, told by the characters of the text. */
module CssScanner {
  import opened PyText
  import opened CssMinifier

  // ----------------------------------------------------------------- comments

  predicate ClosesComment(t: string, k: nat) { k + 2 <= |t| && t[k] == '*' && t[k + 1] == '/' }

  /** The comment that begins the text ends behind the first close after its opening, or with the text. */
  predicate CommentEndsAt(t: string, n: nat) {
    || (n >= 4 && ClosesComment(t, n - 2) && forall k :: 2 <= k < n - 2 ==> !ClosesComment(t, k))
    || (n == |t| && forall k :: 2 <= k < |t| ==> !ClosesComment(t, k))
  }

  lemma {:induction false} CloseIsFirst(t: string, i: nat)
    requires i <= |t|
    ensures forall k :: i <= k < FindClose(t, i) ==> !ClosesComment(t, k)
    ensures FindClose(t, i) < |t| ==> ClosesComment(t, FindClose(t, i))
    decreases |t| - i
  {
    if i + 1 < |t| && !(t[i] == '*' && t[i + 1] == '/') { CloseIsFirst(t, i + 1); }
  }

  lemma CommentExactly(t: string, n: nat)
    requires OpensComment(t)
    ensures CommentLen(t) == n <==> CommentEndsAt(t, n)
  {
    CloseIsFirst(t, 2);
    var c := FindClose(t, 2);
    hide FindClose;
    assert ClosesComment(t, c) || forall k :: 2 <= k < |t| ==> !ClosesComment(t, k);
  }

  // ------------------------------------------------------------------ strings

  /** How many backslashes stand before position `j`, behind the opening quote. */
  function Backslashes(t: string, j: nat): nat
    requires j <= |t|
  {
    if j > 1 && t[j - 1] == '\\' then 1 + Backslashes(t, j - 1) else 0
  }

  /** The quote that opened the text stands here again, behind an even number of backslashes. */
  predicate ClosesString(t: string, j: nat) { 1 <= j < |t| && t[j] == t[0] && Backslashes(t, j) % 2 == 0 }

  /** The string that begins the text ends behind the first quote that closes it, or with the text. */
  predicate StringEndsAt(t: string, n: nat) {
    || (n >= 2 && ClosesString(t, n - 1) && forall j :: 1 <= j < n - 1 ==> !ClosesString(t, j))
    || (n == |t| && forall j :: 1 <= j < |t| ==> !ClosesString(t, j))
  }

  lemma {:induction false} BodyIsFirst(t: string, j: nat)
    requires t != "" && IsQuote(t[0]) && 1 <= j && (j <= |t| ==> Backslashes(t, j) % 2 == 0)
    ensures var r := Body(t, j, t[0]);
            && (forall k :: j <= k < r.0 - 1 ==> !ClosesString(t, k))
            && (r.1 ==> r.0 >= 2 && ClosesString(t, r.0 - 1))
            && (!r.1 ==> forall k :: j <= k < |t| ==> !ClosesString(t, k))
    decreases |t| - j
  {
    if j < |t| {
      if t[j] == '\\' {
        assert Backslashes(t, j + 1) == Backslashes(t, j) + 1;
        BodyIsFirst(t, j + 2);
      } else if t[j] != t[0] {
        assert Backslashes(t, j + 1) == 0;
        BodyIsFirst(t, j + 1);
      }
    }
  }

  lemma StringExactly(t: string, n: nat)
    requires t != "" && IsQuote(t[0])
    ensures Body(t, 1, t[0]).0 == n <==> StringEndsAt(t, n)
  {
    BodyIsFirst(t, 1);
    hide Body, Backslashes, IsQuote;
  }

  // ------------------------------------------------------------------- pieces

  predicate SpacesTo(t: string, n: nat) {
    n <= |t| && (forall k :: 0 <= k < n ==> IsSpace(t[k])) && (n < |t| ==> !IsSpace(t[n]))
  }

  lemma {:induction false} SpacesExactly(t: string, n: nat)
    ensures SpaceLen(t) == n <==> SpacesTo(t, n)
    decreases |t|
  {
    hide IsSpace;
    if t != "" && IsSpace(t[0]) {
      if n > 0 {
        SpacesExactly(t[1..], n - 1);
        assert SpacesTo(t, n) <==> SpacesTo(t[1..], n - 1) by {
          if SpacesTo(t[1..], n - 1) {
            forall k | 0 <= k < n ensures IsSpace(t[k]) { assert k > 0 ==> t[1..][k - 1] == t[k]; }
          }
          if SpacesTo(t, n) {
            forall k | 0 <= k < n - 1 ensures IsSpace(t[1..][k]) { assert t[1..][k] == t[k + 1]; }
          }
        }
      }
    }
  }

  /** The first piece of a text: a comment is a gap; a string goes to its closing quote and is kept; a
      run of blanks is a gap; any other character is itself. */
  lemma FirstExactly(t: string)
    requires t != ""
    ensures var (n, tok) := First(t);
            && 1 <= n <= |t|
            && (if |t| >= 2 && t[..2] == "/*" then tok == Gap && CommentEndsAt(t, n)
                else if t[0] == '"' || t[0] == '\'' then tok == Str(t[..n]) && StringEndsAt(t, n)
                else if IsSpace(t[0]) then tok == Gap && SpacesTo(t, n)
                else n == 1 && tok == Ch(t[0]))
  {
    if |t| >= 2 { assert OpensComment(t) <==> t[..2] == "/*"; }
    if OpensComment(t) { CommentExactly(t, CommentLen(t)); }
    if IsQuote(t[0]) { StringExactly(t, Body(t, 1, t[0]).0); }
    SpacesExactly(t, SpaceLen(t));
    hide CommentLen, Body, SpaceLen, CommentEndsAt, StringEndsAt, IsSpace;
  }
}

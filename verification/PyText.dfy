/** Python string helpers shared by the other modules: whitespace, `str.strip`, and options. */
module PyText {

  datatype Option<+T> = None | Some(value: T)

  /** `str.isspace` for one character; `str.strip()` removes exactly these characters. */
  predicate IsSpace(c: char) {
    || '\U{0009}' <= c <= '\U{000D}'
    || '\U{001C}' <= c <= '\U{0020}'
    || c == '\U{0085}' || c == '\U{00A0}' || c == '\U{1680}'
    || '\U{2000}' <= c <= '\U{200A}'
    || c == '\U{2028}' || c == '\U{2029}' || c == '\U{202F}' || c == '\U{205F}' || c == '\U{3000}'
  }

  function LStrip(s: string): (r: string)
    ensures |r| <= |s| && r == s[|s| - |r|..]
    ensures r != [] ==> !IsSpace(r[0])
    ensures s != [] && !IsSpace(s[0]) ==> r == s
  {
    if s != [] && IsSpace(s[0]) then LStrip(s[1..]) else s
  }

  function RStrip(s: string): (r: string)
    ensures |r| <= |s| && r == s[..|r|]
    ensures r != [] ==> !IsSpace(r[|r| - 1])
    ensures s != [] && !IsSpace(s[|s| - 1]) ==> r == s
  {
    if s != [] && IsSpace(s[|s| - 1]) then RStrip(s[..|s| - 1]) else s
  }

  function Strip(s: string): string {
    LStrip(RStrip(s))
  }

  /** A text with no outer whitespace is left alone. */
  lemma StripTight(s: string)
    requires s == [] || (!IsSpace(s[0]) && !IsSpace(s[|s| - 1]))
    ensures Strip(s) == s
  {
  }

  /** Stripping leaves nothing of a text exactly if it is all whitespace. */
  lemma {:induction false} StripBlank(s: string)
    ensures Strip(s) == "" <==> forall j :: 0 <= j < |s| ==> IsSpace(s[j])
  {
    RStripBlank(s);
    var r := RStrip(s);
    if r != "" {
      LStripVisible(r, |r| - 1);
      assert s[|r| - 1] == r[|r| - 1];
    }
  }

  lemma {:induction false} RStripBlank(s: string)
    ensures RStrip(s) == "" ==> forall j :: 0 <= j < |s| ==> IsSpace(s[j])
    decreases |s|
  {
    hide IsSpace;
    if s != "" && RStrip(s) == "" {
      RStripBlank(s[..|s| - 1]);
      assert forall j :: 0 <= j < |s| - 1 ==> s[..|s| - 1][j] == s[j];
    }
  }

  lemma {:induction false} LStripVisible(s: string, k: nat)
    requires k < |s| && !IsSpace(s[k])
    ensures LStrip(s) != ""
    decreases |s|
  {
    hide IsSpace;
    if IsSpace(s[0]) {
      assert s[1..][k - 1] == s[k];
      LStripVisible(s[1..], k - 1);
    }
  }

  lemma {:induction false} RStripAt(s: string, j: nat)
    requires j <= |s| && (forall k :: j <= k < |s| ==> IsSpace(s[k])) && (j > 0 ==> !IsSpace(s[j - 1]))
    ensures RStrip(s) == s[..j]
    decreases |s|
  {
    hide IsSpace;
    if j < |s| {
      RStripAt(s[..|s| - 1], j);
      assert s[..|s| - 1][..j] == s[..j];
    } else {
      assert s[..j] == s;
    }
  }

  lemma {:induction false} LStripAt(s: string, i: nat)
    requires i <= |s| && (forall k :: 0 <= k < i ==> IsSpace(s[k])) && (i < |s| ==> !IsSpace(s[i]))
    ensures LStrip(s) == s[i..]
    decreases |s|
  {
    hide IsSpace;
    if i > 0 {
      LStripAt(s[1..], i - 1);
      assert s[1..][i - 1..] == s[i..];
    }
  }

  /** Stripping takes all the whitespace from both ends, and nothing else. */
  lemma StripExactly(s: string, i: nat, j: nat)
    requires i < j <= |s| && !IsSpace(s[i]) && !IsSpace(s[j - 1])
    requires (forall k :: 0 <= k < i ==> IsSpace(s[k])) && (forall k :: j <= k < |s| ==> IsSpace(s[k]))
    ensures Strip(s) == s[i..j]
  {
    hide IsSpace;
    RStripAt(s, j);
    LStripAt(s[..j], i);
    assert s[..j][i..] == s[i..j];
  }

  /** The whitespace characters, one by one. */
  lemma SpacesAre(c: char)
    ensures IsSpace(c) <==>
              c in "\U{0009}\U{000A}\U{000B}\U{000C}\U{000D}\U{001C}\U{001D}\U{001E}\U{001F}\U{0020}"
                 + "\U{0085}\U{00A0}\U{1680}\U{2000}\U{2001}\U{2002}\U{2003}\U{2004}\U{2005}\U{2006}"
                 + "\U{2007}\U{2008}\U{2009}\U{200A}\U{2028}\U{2029}\U{202F}\U{205F}\U{3000}"
  {
  }

  lemma StripIdempotent(s: string)
    ensures Strip(Strip(s)) == Strip(s)
    ensures Strip(s) != [] ==> !IsSpace(Strip(s)[0]) && !IsSpace(Strip(s)[|Strip(s)| - 1])
  {
    hide IsSpace;
    var r := RStrip(s);
    var t := LStrip(r);
    if t != [] {
      assert t[|t| - 1] == r[|r| - 1];
    }
    assert Strip(s) == t;
    hide LStrip, RStrip;
    StripTight(t);
  }
}

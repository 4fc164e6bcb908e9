/** Spaces, cutting and splitting of names. */
module Text {
  import opened Results

  predicate IsSpace(c: char) {
    c in {' ', '\t', '\n', '\r', 11 as char, 12 as char, 0x85 as char, 0xA0 as char}
  }

  predicate Blank(s: string) {
    forall c | c in s :: IsSpace(c)
  }

  function TrimLeft(s: string): string {
    if s != "" && IsSpace(s[0]) then TrimLeft(s[1..]) else s
  }

  function TrimRight(s: string): string {
    if s != "" && IsSpace(s[|s| - 1]) then TrimRight(s[..|s| - 1]) else s
  }

  function Trim(s: string): string {
    TrimRight(TrimLeft(s))
  }

  function LowerOf(c: char): char {
    if 'A' <= c <= 'Z' then c - 'A' + 'a' else c
  }

  function Lower(s: string): string {
    if s == "" then "" else [LowerOf(s[0])] + Lower(s[1..])
  }

  predicate Lowered(s: string) {
    forall c | c in s :: !('A' <= c <= 'Z')
  }

  predicate Unpadded(s: string) {
    s != "" ==> !IsSpace(s[0]) && !IsSpace(s[|s| - 1])
  }

  lemma {:induction false} LowerIs(s: string)
    ensures |Lower(s)| == |s| && forall i | 0 <= i < |s| :: Lower(s)[i] == LowerOf(s[i])
  {
    hide LowerOf;
    if s != "" {
      LowerIs(s[1..]);
      assert forall i | 1 <= i < |s| :: Lower(s)[i] == Lower(s[1..])[i - 1] && s[i] == s[1..][i - 1];
    }
  }

  lemma LowerChars(s: string)
    ensures |Lower(s)| == |s| && Lowered(Lower(s)) && (Unpadded(s) ==> Unpadded(Lower(s)))
    ensures Lowered(s) ==> Lower(s) == s
  {
    LowerIs(s);
    hide Lower;
    assert forall i | 0 <= i < |s| :: s[i] in s;
  }

  lemma {:induction false} TrimLeftStarts(s: string)
    ensures TrimLeft(s) != "" ==> !IsSpace(TrimLeft(s)[0])
    ensures TrimLeft(s) == "" <==> Blank(s)
  {
    hide IsSpace;
    if s != "" {
      assert forall c :: c in s <==> c == s[0] || c in s[1..];
      if IsSpace(s[0]) { TrimLeftStarts(s[1..]); }
    }
  }

  lemma {:induction false} TrimRightEnds(s: string)
    requires s != "" ==> !IsSpace(s[0])
    ensures Unpadded(TrimRight(s)) && (TrimRight(s) == "" <==> s == "")
  {
    hide IsSpace;
    if s != "" && IsSpace(s[|s| - 1]) { TrimRightEnds(s[..|s| - 1]); }
  }

  lemma TrimUnpads(s: string)
    ensures Unpadded(Trim(s)) && (Trim(s) == "" <==> Blank(s))
    ensures Unpadded(s) ==> Trim(s) == s
  {
    hide IsSpace, Blank;
    TrimLeftStarts(s);
    TrimRightEnds(TrimLeft(s));
  }

  lemma LowerTrim(s: string)
    ensures var t := Lower(Trim(s));
      Lower(Trim(t)) == t && Lowered(t) && Unpadded(t) && (t == "" <==> Blank(s))
  {
    TrimUnpads(s);
    LowerChars(Trim(s));
    TrimUnpads(Lower(Trim(s)));
    LowerChars(Lower(Trim(s)));
    hide Trim, Lower, IsSpace, Blank, Lowered, Unpadded;
  }

  /** strings.Cut: the text before and after the first `c`. */
  function Cut(s: string, c: char): (r: Option<(string, string)>)
    ensures r.None? <==> c !in s
    ensures r.Some? ==> s == r.value.0 + [c] + r.value.1 && c !in r.value.0
  {
    if s == "" then None
    else if s[0] == c then Some(("", s[1..]))
    else
      var rest := Cut(s[1..], c);
      if rest.None? then None else Some(([s[0]] + rest.value.0, rest.value.1))
  }

  lemma {:induction false} CutIsFirst(a: string, c: char, b: string)
    requires c !in a
    ensures Cut(a + [c] + b, c) == Some((a, b))
  {
    var s := a + [c] + b;
    if a == "" {
      assert s[1..] == b;
    } else {
      assert s[1..] == a[1..] + [c] + b;
      CutIsFirst(a[1..], c, b);
      assert a == [a[0]] + a[1..];
    }
  }

  /** The pieces of `s` between separators. */
  function Split(s: string, c: char): (pieces: seq<string>)
    ensures |pieces| >= 1
    decreases |s|
  {
    var cut := Cut(s, c);
    if cut.None? then [s] else [cut.value.0] + Split(cut.value.1, c)
  }
}

/** Text helpers used by the changelog parser: whitespace trimming and
    collapsing (the normalisation applied to every change entry) and ASCII
    lower-casing (used to read the `type` attribute). */
module Whitespace {

  /** The whitespace set: space, tab, line feed, vertical tab, form feed and
      carriage return (the ASCII characters of a regular-expression `\s`). */
  predicate IsSpace(c: char) {
    c == ' ' || c == '\t' || c == '\n' || c == '\U{B}' || c == '\U{C}' || c == '\r'
  }

  /** `s` with its leading whitespace removed. */
  function TrimStart(s: string): (r: string)
    ensures |r| <= |s| && (s != [] && IsSpace(s[0]) ==> |r| < |s|)
    decreases |s|
  {
    if s != [] && IsSpace(s[0]) then TrimStart(s[1..]) else s
  }

  /** Trimming the start leaves a suffix that does not start with whitespace,
      and removes only whitespace. */
  lemma {:induction false} TrimStartSpec(s: string)
    ensures |TrimStart(s)| <= |s| && TrimStart(s) == s[|s| - |TrimStart(s)|..]
    ensures TrimStart(s) == [] || !IsSpace(TrimStart(s)[0])
    ensures forall i | 0 <= i < |s| - |TrimStart(s)| :: IsSpace(s[i])
    decreases |s|
  {
    if s != [] && IsSpace(s[0]) {
      TrimStartSpec(s[1..]);
      forall i | 0 <= i < |s| - |TrimStart(s)| ensures IsSpace(s[i]) {
        if i > 0 { assert s[i] == s[1..][i - 1]; }
      }
    }
  }

  /** `s` with its trailing whitespace removed. */
  function TrimEnd(s: string): (r: string)
    ensures |r| <= |s|
    decreases |s|
  {
    if s != [] && IsSpace(s[|s| - 1]) then TrimEnd(s[..|s| - 1]) else s
  }

  /** Trimming the end leaves a prefix that does not end with whitespace, and
      removes only whitespace. */
  lemma {:induction false} TrimEndSpec(s: string)
    ensures |TrimEnd(s)| <= |s| && TrimEnd(s) == s[..|TrimEnd(s)|]
    ensures TrimEnd(s) == [] || !IsSpace(TrimEnd(s)[|TrimEnd(s)| - 1])
    ensures forall i | |TrimEnd(s)| <= i < |s| :: IsSpace(s[i])
    decreases |s|
  {
    if s != [] && IsSpace(s[|s| - 1]) {
      TrimEndSpec(s[..|s| - 1]);
      forall i | |TrimEnd(s)| <= i < |s| ensures IsSpace(s[i]) {
        if i < |s| - 1 { assert s[i] == s[..|s| - 1][i]; }
      }
    }
  }

  /** `s` without whitespace at either end. */
  function Trim(s: string): string {
    TrimEnd(TrimStart(s))
  }

  /** Every maximal run of whitespace in `s` replaced by one space. */
  function Collapse(s: string): string
    decreases |s|
  {
    if s == [] then []
    else if IsSpace(s[0]) then [' '] + Collapse(TrimStart(s))
    else [s[0]] + Collapse(s[1..])
  }

  /** The text of a change entry as the parser stores it: trimmed, then every
      whitespace run collapsed to a single space. */
  function Normalize(s: string): string {
    Collapse(Trim(s))
  }

  /** Text in normal form: no whitespace at either end, and every whitespace
      character is a single space followed by a non-whitespace character. */
  predicate Normalized(s: string) {
    (s != [] ==> !IsSpace(s[0]) && !IsSpace(s[|s| - 1])) && Collapsed(s)
  }

  /** Every whitespace character of `s` is a space not followed by whitespace. */
  predicate Collapsed(s: string) {
    forall i | 0 <= i < |s| && IsSpace(s[i]) :: s[i] == ' ' && (i + 1 < |s| ==> !IsSpace(s[i + 1]))
  }

  lemma CollapsedTail(s: string)
    requires s != [] && Collapsed(s)
    ensures Collapsed(s[1..])
  {
    var t := s[1..];
    forall i | 0 <= i < |t| && IsSpace(t[i]) ensures t[i] == ' ' && (i + 1 < |t| ==> !IsSpace(t[i + 1])) {
      assert t[i] == s[i + 1];
      assert i + 1 < |t| ==> t[i + 1] == s[i + 2];
    }
  }

  /** The characters of `s` that are not whitespace, in order. */
  function NonSpace(s: string): string {
    if s == [] then []
    else if IsSpace(s[0]) then NonSpace(s[1..])
    else [s[0]] + NonSpace(s[1..])
  }

  lemma {:induction false} NonSpaceAppend(a: string, b: string)
    ensures NonSpace(a + b) == NonSpace(a) + NonSpace(b)
  {
    if a != [] {
      assert (a + b)[1..] == a[1..] + b;
      NonSpaceAppend(a[1..], b);
    } else {
      assert a + b == b;
    }
  }

  lemma {:induction false} NonSpaceAllSpace(s: string)
    requires forall i | 0 <= i < |s| :: IsSpace(s[i])
    ensures NonSpace(s) == []
  {
    if s != [] {
      NonSpaceAllSpace(s[1..]);
    }
  }

  /** A run that is all whitespace is exactly one whose non-whitespace content is empty. */
  lemma {:induction false} NonSpaceEmpty(s: string)
    ensures NonSpace(s) == [] <==> forall i | 0 <= i < |s| :: IsSpace(s[i])
  {
    if s != [] {
      NonSpaceEmpty(s[1..]);
      if IsSpace(s[0]) {
        forall i | 0 <= i < |s| && (forall j | 0 <= j < |s[1..]| :: IsSpace(s[1..][j]))
          ensures IsSpace(s[i])
        {
          if i > 0 { assert s[i] == s[1..][i - 1]; }
        }
      }
    }
  }

  /** Trimming removes whitespace only. */
  lemma TrimKeepsContent(s: string)
    ensures NonSpace(TrimStart(s)) == NonSpace(s)
    ensures NonSpace(TrimEnd(s)) == NonSpace(s)
  {
    TrimStartKeepsContent(s);
    TrimEndKeepsContent(s);
  }

  lemma TrimStartKeepsContent(s: string)
    ensures NonSpace(TrimStart(s)) == NonSpace(s)
  {
    var a := TrimStart(s);
    TrimStartSpec(s);
    var ws := s[..|s| - |a|];
    assert s == ws + a;
    NonSpaceAppend(ws, a);
    NonSpaceAllSpace(ws);
  }

  lemma TrimEndKeepsContent(s: string)
    ensures NonSpace(TrimEnd(s)) == NonSpace(s)
  {
    var b := TrimEnd(s);
    TrimEndSpec(s);
    var ws := s[|b|..];
    assert s == b + ws;
    NonSpaceAppend(b, ws);
    NonSpaceAllSpace(ws);
  }

  /** Collapsing replaces whitespace by whitespace and keeps everything else. */
  lemma {:induction false} CollapseKeepsContent(s: string)
    ensures NonSpace(Collapse(s)) == NonSpace(s)
    decreases |s|
  {
    if s != [] {
      if IsSpace(s[0]) {
        var t := TrimStart(s);
        CollapseKeepsContent(t);
        TrimKeepsContent(s);
        assert ([' '] + Collapse(t))[1..] == Collapse(t);
      } else {
        CollapseKeepsContent(s[1..]);
        assert ([s[0]] + Collapse(s[1..]))[1..] == Collapse(s[1..]);
      }
    }
  }

  /** Collapsing keeps emptiness and whether each end is whitespace. */
  lemma {:induction false} CollapseEnds(s: string)
    ensures Collapse(s) == [] <==> s == []
    ensures s != [] ==> (IsSpace(Collapse(s)[0]) <==> IsSpace(s[0]))
    ensures s != [] ==> (IsSpace(Collapse(s)[|Collapse(s)| - 1]) <==> IsSpace(s[|s| - 1]))
    decreases |s|
  {
    if s != [] {
      var t := if IsSpace(s[0]) then TrimStart(s) else s[1..];
      TrimStartSpec(s);
      var r, rest := Collapse(s), Collapse(t);
      assert r == [r[0]] + rest;
      CollapseEnds(t);
      if t == [] {
        assert |r| == 1;
        if IsSpace(s[0]) {
          assert forall i | 0 <= i < |s| :: IsSpace(s[i]);
        } else {
          assert |s| == 1;
        }
      } else {
        assert r[|r| - 1] == rest[|rest| - 1];
        assert t[|t| - 1] == s[|s| - 1];
      }
    }
  }

  /** Whitespace in a collapsed string is a lone space. */
  lemma {:induction false} CollapseSpacesAreSingle(s: string)
    ensures Collapsed(Collapse(s))
    decreases |s|
  {
    if s != [] {
      var r := Collapse(s);
      var t := if IsSpace(s[0]) then TrimStart(s) else s[1..];
      TrimStartSpec(s);
      CollapseSpacesAreSingle(t);
      CollapseEnds(t);
      var rest := Collapse(t);
      assert r == [r[0]] + rest;
      forall i | 0 <= i < |r| && IsSpace(r[i])
        ensures r[i] == ' ' && (i + 1 < |r| ==> !IsSpace(r[i + 1]))
      {
        if i > 0 {
          assert r[i] == rest[i - 1];
          assert i + 1 < |r| ==> r[i + 1] == rest[i];
        } else {
          assert r[0] == ' ';
          assert i + 1 < |r| ==> r[i + 1] == rest[0];
        }
      }
    }
  }

  /** Leading whitespace is exactly what `TrimStart` removes. */
  lemma {:induction false} TrimStartSkips(ws: string, s: string)
    requires forall i | 0 <= i < |ws| :: IsSpace(ws[i])
    requires s == [] || !IsSpace(s[0])
    ensures TrimStart(ws + s) == s
    decreases |ws|
  {
    if ws == [] {
      assert ws + s == s;
    } else {
      assert (ws + s)[1..] == ws[1..] + s;
      TrimStartSkips(ws[1..], s);
    }
  }

  /** Trailing whitespace is exactly what `TrimEnd` removes. */
  lemma {:induction false} TrimEndSkips(s: string, ws: string)
    requires forall i | 0 <= i < |ws| :: IsSpace(ws[i])
    requires s == [] || !IsSpace(s[|s| - 1])
    ensures TrimEnd(s + ws) == s
    decreases |ws|
  {
    if ws == [] {
      assert s + ws == s;
    } else {
      assert (s + ws)[..|s + ws| - 1] == s + ws[..|ws| - 1];
      TrimEndSkips(s, ws[..|ws| - 1]);
    }
  }

  /** A whitespace run becomes one space. */
  lemma CollapseRun(ws: string, s: string)
    requires ws != [] && forall i | 0 <= i < |ws| :: IsSpace(ws[i])
    requires s == [] || !IsSpace(s[0])
    ensures Collapse(ws + s) == [' '] + Collapse(s)
  {
    assert (ws + s)[0] == ws[0];
    TrimStartSkips(ws, s);
  }

  lemma CollapseCons(c: char, t: string)
    requires !IsSpace(c)
    ensures Collapse([c] + t) == [c] + Collapse(t)
  {
    assert ([c] + t)[0] == c && ([c] + t)[1..] == t;
  }

  /** Text without whitespace is kept as it is. */
  lemma {:induction false} CollapseWord(w: string, s: string)
    requires forall i | 0 <= i < |w| :: !IsSpace(w[i])
    ensures Collapse(w + s) == w + Collapse(s)
    decreases |w|
  {
    if w == [] {
      assert w + s == s;
    } else {
      var t := w[1..] + s;
      assert w + s == [w[0]] + t;
      CollapseCons(w[0], t);
      CollapseWord(w[1..], s);
      var c := Collapse(s);
      assert w == [w[0]] + w[1..];
      assert [w[0]] + (w[1..] + c) == ([w[0]] + w[1..]) + c;
    }
  }

  /** The normalised text is in normal form. */
  lemma NormalizeIsNormalized(s: string)
    ensures Normalized(Normalize(s))
  {
    TrimStartSpec(s);
    TrimEndSpec(TrimStart(s));
    CollapseSpacesAreSingle(Trim(s));
    CollapseEnds(Trim(s));
  }

  /** A string already in normal form is left as it is by collapsing. */
  lemma {:induction false} CollapseNormalized(s: string)
    requires Collapsed(s)
    ensures Collapse(s) == s
    decreases |s|
  {
    if s != [] {
      var t := s[1..];
      CollapsedTail(s);
      CollapseNormalized(t);
      assert [s[0]] + t == s;
      if IsSpace(s[0]) {
        assert TrimStart(t) == t;
      }
    }
  }

  /** Normal form is a fixed point of normalisation. */
  lemma NormalizeFixpoint(s: string)
    requires Normalized(s)
    ensures Normalize(s) == s
  {
    assert TrimStart(s) == s;
    assert TrimEnd(s) == s;
    CollapseNormalized(s);
  }

  /** Normalising twice gives the same text as normalising once. */
  lemma NormalizeIdempotent(s: string)
    ensures Normalize(Normalize(s)) == Normalize(s)
  {
    NormalizeIsNormalized(s);
    NormalizeFixpoint(Normalize(s));
  }

  /** Normalisation keeps every non-whitespace character, in order. */
  lemma NormalizeKeepsContent(s: string)
    ensures NonSpace(Normalize(s)) == NonSpace(s)
  {
    TrimKeepsContent(s);
    TrimKeepsContent(TrimStart(s));
    CollapseKeepsContent(Trim(s));
  }

  /** The normalised text is empty exactly when the input is all whitespace. */
  lemma NormalizeEmpty(s: string)
    ensures Normalize(s) == [] <==> forall i | 0 <= i < |s| :: IsSpace(s[i])
  {
    var n := Normalize(s);
    NormalizeKeepsContent(s);
    NormalizeIsNormalized(s);
    NonSpaceEmpty(s);
    NonSpaceEmpty(n);
    if n != [] {
      assert !IsSpace(n[0]);
    }
  }

  /** ASCII lower-casing of one character. */
  function LowerChar(c: char): char {
    if 'A' <= c <= 'Z' then (c as int + 32) as char else c
  }

  /** ASCII lower-casing of a string. */
  function Lower(s: string): (r: string)
    ensures |r| == |s| && forall i | 0 <= i < |s| :: r[i] == LowerChar(s[i])
  {
    if s == [] then [] else [LowerChar(s[0])] + Lower(s[1..])
  }

  /** `a` and `b` spell the same word up to letter case. */
  predicate EqualsIgnoreCase(a: string, b: string) {
    |a| == |b| && forall i | 0 <= i < |a| :: LowerChar(a[i]) == LowerChar(b[i])
  }
}

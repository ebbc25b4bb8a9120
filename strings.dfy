/** ASCII models of the Python `str` operations that the link-analysis
    phases apply to URLs, anchors, titles and blog content. */
module Strings {

  /** Python's `str.isspace` on ASCII: the space, the controls 0x09-0x0D
      and the separators 0x1C-0x1F. `str.strip()`, `str.split()` and the
      regular-expression class `\s` all use this set. */
  predicate IsSpace(c: char) {
    c == ' ' || (9 <= c as int <= 13) || (28 <= c as int <= 31)
  }

  predicate AllSpace(s: string) {
    forall i :: 0 <= i < |s| ==> IsSpace(s[i])
  }

  predicate NoSpace(s: string) {
    forall i :: 0 <= i < |s| ==> !IsSpace(s[i])
  }

  /** Nothing but whitespace at neither end: the shape `str.strip()` leaves. */
  predicate Trimmed(s: string) {
    s == [] || (!IsSpace(s[0]) && !IsSpace(s[|s| - 1]))
  }

  // ---------------------------------------------------------------------
  // str.lower()
  // ---------------------------------------------------------------------

  function LowerChar(c: char): (d: char)
    ensures IsSpace(d) <==> IsSpace(c)
    ensures !('A' <= d <= 'Z')
    ensures !('A' <= c <= 'Z') ==> d == c
  {
    if 'A' <= c <= 'Z' then (c as int + 32) as char else c
  }

  function Lower(s: string): (r: string)
    ensures |r| == |s|
    ensures forall i :: 0 <= i < |s| ==> r[i] == LowerChar(s[i])
  {
    seq(|s|, i requires 0 <= i < |s| => LowerChar(s[i]))
  }

  // ---------------------------------------------------------------------
  // str.strip()
  // ---------------------------------------------------------------------

  function TrimLeft(s: string): (r: string)
    ensures |r| <= |s| && r == s[|s| - |r|..]
    ensures AllSpace(s[..|s| - |r|])
    ensures r == [] || !IsSpace(r[0])
  {
    if s != [] && IsSpace(s[0]) then TrimLeft(s[1..]) else s
  }

  function TrimRight(s: string): (r: string)
    ensures |r| <= |s| && r == s[..|r|]
    ensures AllSpace(s[|r|..])
    ensures r == [] || !IsSpace(r[|r| - 1])
  {
    if s != [] && IsSpace(s[|s| - 1]) then TrimRight(s[..|s| - 1]) else s
  }

  /** Python's `str.strip()` without arguments. */
  function Strip(s: string): (r: string)
    ensures Trimmed(r)
    ensures |r| <= |s|
  {
    TrimRight(TrimLeft(s))
  }

  lemma {:induction false} TrimLeftSpaces(lead: string, t: string)
    requires AllSpace(lead) && (t == [] || !IsSpace(t[0]))
    ensures TrimLeft(lead + t) == t
  {
    if lead != [] {
      assert (lead + t)[1..] == lead[1..] + t;
      TrimLeftSpaces(lead[1..], t);
    } else {
      assert lead + t == t;
    }
  }

  lemma {:induction false} TrimRightSpaces(t: string, trail: string)
    requires AllSpace(trail) && (t == [] || !IsSpace(t[|t| - 1]))
    ensures TrimRight(t + trail) == t
  {
    if trail != [] {
      var n := |trail| - 1;
      assert (t + trail)[..|t + trail| - 1] == t + trail[..n];
      TrimRightSpaces(t, trail[..n]);
    } else {
      assert t + trail == t;
    }
  }

  /** `strip()` takes off exactly the whitespace around a trimmed core:
      it is the unique way to write a string as space + core + space. */
  lemma StripUnique(lead: string, core: string, trail: string)
    requires AllSpace(lead) && AllSpace(trail) && Trimmed(core)
    ensures Strip(lead + core + trail) == core
  {
    if core == [] {
      assert lead + core + trail == lead + trail;
      var s := lead + trail;
      assert AllSpace(s);
      TrimLeftAllSpace(s);
    } else {
      assert lead + core + trail == lead + (core + trail);
      TrimLeftSpaces(lead, core + trail);
      TrimRightSpaces(core, trail);
    }
  }

  lemma {:induction false} TrimLeftAllSpace(s: string)
    requires AllSpace(s)
    ensures TrimLeft(s) == []
  {
    if s != [] {
      TrimLeftAllSpace(s[1..]);
    }
  }

  lemma {:induction false} LowerTrimLeft(s: string)
    ensures Lower(TrimLeft(s)) == TrimLeft(Lower(s))
  {
    if s != [] && IsSpace(s[0]) {
      assert Lower(s)[1..] == Lower(s[1..]);
      LowerTrimLeft(s[1..]);
    }
  }

  lemma {:induction false} LowerTrimRight(s: string)
    ensures Lower(TrimRight(s)) == TrimRight(Lower(s))
  {
    if s != [] && IsSpace(s[|s| - 1]) {
      assert Lower(s)[..|s| - 1] == Lower(s[..|s| - 1]);
      LowerTrimRight(s[..|s| - 1]);
    }
  }

  /** On ASCII, `s.strip().lower()` and `s.lower().strip()` agree. */
  lemma LowerStripCommute(s: string)
    ensures Lower(Strip(s)) == Strip(Lower(s))
  {
    LowerTrimLeft(s);
    LowerTrimRight(TrimLeft(s));
  }

  // ---------------------------------------------------------------------
  // str.split() and " ".join(...)
  // ---------------------------------------------------------------------

  /** The longest prefix of `s` without whitespace. */
  function LeadingWord(s: string): (w: string)
    ensures w <= s && NoSpace(w)
    ensures |w| < |s| ==> IsSpace(s[|w|])
  {
    if s == [] || IsSpace(s[0]) then [] else [s[0]] + LeadingWord(s[1..])
  }

  /** Python's `str.split()` without arguments: the maximal runs of
      non-whitespace characters, in order. */
  function Words(s: string): (ws: seq<string>)
    ensures forall i :: 0 <= i < |ws| ==> ws[i] != [] && NoSpace(ws[i])
    ensures forall i, k :: 0 <= i < |ws| && 0 <= k < |ws[i]| ==> ws[i][k] in s
    decreases |s|
  {
    if s == [] then []
    else if IsSpace(s[0]) then Words(s[1..])
    else
      var w := LeadingWord(s);
      var rest := Words(s[|w|..]);
      assert forall i, k :: 0 <= i < |rest| && 0 <= k < |rest[i]| ==> rest[i][k] in s by {
        forall i, k | 0 <= i < |rest| && 0 <= k < |rest[i]|
          ensures rest[i][k] in s
        {
          var c := rest[i][k];
          assert c in s[|w|..];
          var m :| 0 <= m < |s[|w|..]| && s[|w|..][m] == c;
          assert s[|w| + m] == c;
        }
      }
      [w] + rest
  }

  /** Python's `" ".join(ws)`. */
  function JoinWords(ws: seq<string>): string {
    if |ws| == 0 then ""
    else if |ws| == 1 then ws[0]
    else ws[0] + " " + JoinWords(ws[1..])
  }

  lemma {:induction false} LeadingWordOf(w: string, t: string)
    requires NoSpace(w) && (t == [] || IsSpace(t[0]))
    ensures LeadingWord(w + t) == w
  {
    if w == [] {
      assert w + t == t;
    } else {
      assert (w + t)[1..] == w[1..] + t;
      LeadingWordOf(w[1..], t);
    }
  }

  /** Splitting undoes joining: `" ".join(ws).split() == ws` whenever the
      words are non-empty and hold no whitespace. */
  lemma {:induction false} WordsOfJoin(ws: seq<string>)
    requires forall i :: 0 <= i < |ws| ==> ws[i] != [] && NoSpace(ws[i])
    ensures Words(JoinWords(ws)) == ws
  {
    if |ws| == 0 {
    } else if |ws| == 1 {
      var w := ws[0];
      LeadingWordOf(w, []);
      assert w + [] == w;
      assert w[|w|..] == [];
    } else {
      var w := ws[0];
      var j := JoinWords(ws[1..]);
      var s := w + " " + j;
      assert s == w + (" " + j);
      LeadingWordOf(w, " " + j);
      assert s[|w|..] == " " + j;
      assert (" " + j)[1..] == j;
      WordsOfJoin(ws[1..]);
      assert ws == [w] + ws[1..];
    }
  }

  // ---------------------------------------------------------------------
  // needle in haystack
  // ---------------------------------------------------------------------

  /** Python's substring test `needle in hay`. */
  predicate Occurs(needle: string, hay: string)
    decreases |hay|
  {
    needle <= hay || (hay != [] && Occurs(needle, hay[1..]))
  }

  /** A needle starting at position `i` of `hay` is found by `needle in hay`. */
  lemma {:induction false} OccursAt(needle: string, hay: string, i: nat)
    requires i <= |hay| && needle <= hay[i..]
    ensures Occurs(needle, hay)
  {
    if i > 0 {
      assert hay[1..][i - 1..] == hay[i..];
      OccursAt(needle, hay[1..], i - 1);
    }
  }

  /** `needle in hay` holds exactly when `needle` starts at some position of `hay`. */
  lemma {:induction false} OccursIffAt(needle: string, hay: string)
    ensures Occurs(needle, hay) <==> exists i :: 0 <= i <= |hay| && needle <= hay[i..]
  {
    if exists i :: 0 <= i <= |hay| && needle <= hay[i..] {
      var i :| 0 <= i <= |hay| && needle <= hay[i..];
      OccursAt(needle, hay, i);
    }
    if Occurs(needle, hay) {
      if needle <= hay {
        assert hay[0..] == hay;
      } else {
        OccursIffAt(needle, hay[1..]);
        var i :| 0 <= i <= |hay[1..]| && needle <= hay[1..][i..];
        assert hay[1..][i..] == hay[i + 1..];
      }
    }
  }

  // ---------------------------------------------------------------------
  // url.rstrip("/").split("/")[-1].replace("-", " ")
  // ---------------------------------------------------------------------

  /** Python's `s.rstrip(c)` for a single character `c`. */
  function TrimTrailing(s: string, c: char): (r: string)
    ensures r <= s
    ensures r == [] || r[|r| - 1] != c
    ensures forall i :: |r| <= i < |s| ==> s[i] == c
  {
    if s != [] && s[|s| - 1] == c then TrimTrailing(s[..|s| - 1], c) else s
  }

  /** Python's `s.split(sep)[-1]`: the part after the last `sep`, or all
      of `s` when it holds no `sep`. */
  function LastSegment(s: string, sep: char): (r: string)
    ensures |r| <= |s| && r == s[|s| - |r|..]
    ensures sep !in r
    ensures |r| < |s| ==> s[|s| - |r| - 1] == sep
  {
    if s == [] || s[|s| - 1] == sep then []
    else LastSegment(s[..|s| - 1], sep) + [s[|s| - 1]]
  }

  /** Python's `s.replace(a, b)` for single characters. */
  function ReplaceChar(s: string, a: char, b: char): (r: string)
    ensures |r| == |s|
    ensures forall i :: 0 <= i < |s| ==> r[i] == if s[i] == a then b else s[i]
  {
    seq(|s|, i requires 0 <= i < |s| => if s[i] == a then b else s[i])
  }

  /** The segment after the last separator is whatever follows it. */
  lemma {:induction false} LastSegmentAfter(prefix: string, sep: char, seg: string)
    requires sep !in seg
    ensures LastSegment(prefix + [sep] + seg, sep) == seg
  {
    var s := prefix + [sep] + seg;
    if seg == [] {
      assert s[|s| - 1] == sep;
    } else {
      var n := |seg| - 1;
      assert s[..|s| - 1] == prefix + [sep] + seg[..n];
      LastSegmentAfter(prefix, sep, seg[..n]);
      assert seg == seg[..n] + [seg[n]];
    }
  }

  /** A string without the separator is its own last segment. */
  lemma {:induction false} LastSegmentWhole(seg: string, sep: char)
    requires sep !in seg
    ensures LastSegment(seg, sep) == seg
  {
    if seg != [] {
      var n := |seg| - 1;
      LastSegmentWhole(seg[..n], sep);
      assert seg == seg[..n] + [seg[n]];
    }
  }

  lemma {:induction false} TrimTrailingExtra(s: string, c: char)
    ensures TrimTrailing(s + [c], c) == TrimTrailing(s, c)
  {
    assert (s + [c])[..|s + [c]| - 1] == s;
  }

  lemma {:induction false} TrimTrailingNone(s: string, c: char)
    requires s == [] || s[|s| - 1] != c
    ensures TrimTrailing(s, c) == s
  {
  }
}

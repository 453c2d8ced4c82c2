/** The one piece of chart rendering that is plain string logic: the paper
    title shown on the chart keeps at most its first four whitespace-separated
    words, joined by single spaces, followed by a space and an ellipsis. */
module Chart {

  /** Python's `str.isspace` for a single character: the characters
      `str.split()` with no argument splits on. */
  predicate IsSpace(c: char) {
    || ('\U{0009}' <= c <= '\U{000D}')   // tab, line feed, vertical tab, form feed, carriage return
    || ('\U{001C}' <= c <= '\U{0020}')   // file/group/record/unit separators, space
    || c == '\U{0085}' || c == '\U{00A0}' || c == '\U{1680}'
    || ('\U{2000}' <= c <= '\U{200A}')
    || c == '\U{2028}' || c == '\U{2029}' || c == '\U{202F}' || c == '\U{205F}' || c == '\U{3000}'
  }

  /** A word as `str.split()` produces it: non-empty, with no whitespace. */
  predicate IsWord(w: string) {
    |w| > 0 && forall i :: 0 <= i < |w| ==> !IsSpace(w[i])
  }

  /** Most words the chart title keeps. */
  const MaxTitleWords := 4

  /** Appended to the kept words, always. */
  const Ellipsis := " \U{2026}"

  /** Length of the longest whitespace-free prefix of `s`. */
  function WordLength(s: string): (n: nat)
    ensures n <= |s|
    ensures forall i :: 0 <= i < n ==> !IsSpace(s[i])
    ensures n < |s| ==> IsSpace(s[n])
  {
    if |s| == 0 || IsSpace(s[0]) then 0 else 1 + WordLength(s[1..])
  }

  /** `s.split()`: the maximal runs of non-whitespace characters, in order. */
  function Words(s: string): (ws: seq<string>)
    ensures forall i :: 0 <= i < |ws| ==> IsWord(ws[i])
    decreases |s|
  {
    if |s| == 0 then []
    else if IsSpace(s[0]) then Words(s[1..])
    else
      var n := WordLength(s);
      [s[..n]] + Words(s[n..])
  }

  /** `" ".join(ws)`. */
  function Join(ws: seq<string>): string {
    if |ws| == 0 then ""
    else if |ws| == 1 then ws[0]
    else ws[0] + " " + Join(ws[1..])
  }

  /** The only whitespace in `s` is the plain space. */
  predicate PlainSpaced(s: string) {
    forall i :: 0 <= i < |s| && IsSpace(s[i]) ==> s[i] == ' '
  }

  /** `" ".join(title.split()[:4]) + " …"`: the only whitespace in the
      result is plain spaces, one between each two kept words and one
      before the ellipsis (so exactly one when the title has no words). */
  function ChartTitle(title: string): (t: string)
    ensures |t| >= |Ellipsis|
    ensures t[|t| - |Ellipsis|..] == Ellipsis
    ensures PlainSpaced(t)
    ensures var ws := Words(title);
      var k := if |ws| <= MaxTitleWords then |ws| else MaxTitleWords;
      |t| - |Letters(t)| == if k == 0 then 1 else k
  {
    var ws := Words(title);
    var kept := if |ws| <= MaxTitleWords then ws else ws[..MaxTitleWords];
    JoinLayout(kept);
    LettersAppend(Join(kept), Ellipsis);
    assert Letters(Ellipsis) == "\U{2026}" by {
      assert Ellipsis[1..] == "\U{2026}" && Ellipsis[1..][1..] == "";
    }
    Join(kept) + Ellipsis
  }

  // ---------------------------------------------------------------------
  // Lemmas

  /** The characters of `s` that are not whitespace, in order. */
  function Letters(s: string): string {
    if |s| == 0 then "" else (if IsSpace(s[0]) then "" else [s[0]]) + Letters(s[1..])
  }

  /** All words of a sequence, run together. */
  function Concat(ws: seq<string>): string {
    if |ws| == 0 then "" else ws[0] + Concat(ws[1..])
  }

  lemma {:induction false} LettersAppend(a: string, b: string)
    ensures Letters(a + b) == Letters(a) + Letters(b)
  {
    if |a| > 0 {
      assert (a + b)[1..] == a[1..] + b;
      LettersAppend(a[1..], b);
    } else {
      assert a + b == b;
    }
  }

  lemma {:induction false} LettersOfWord(w: string)
    requires forall i :: 0 <= i < |w| ==> !IsSpace(w[i])
    ensures Letters(w) == w
  {
    if |w| > 0 {
      LettersOfWord(w[1..]);
    }
  }

  /** Splitting loses only whitespace: the words, run together, are the
      non-whitespace characters of the text, in order. */
  lemma {:induction false} WordsKeepLetters(s: string)
    ensures Concat(Words(s)) == Letters(s)
    decreases |s|
  {
    if |s| > 0 {
      if IsSpace(s[0]) {
        WordsKeepLetters(s[1..]);
      } else {
        var n := WordLength(s);
        assert s == s[..n] + s[n..];
        WordsKeepLetters(s[n..]);
        LettersAppend(s[..n], s[n..]);
        LettersOfWord(s[..n]);
        assert Words(s) == [s[..n]] + Words(s[n..]);
      }
    }
  }

  /** The first word of a word followed by a space and more text. */
  lemma WordLengthOfWord(w: string, rest: string)
    requires IsWord(w)
    requires rest == [] || IsSpace(rest[0])
    ensures WordLength(w + rest) == |w|
  {
    var s := w + rest;
    assert forall i :: 0 <= i < |w| ==> s[i] == w[i];
    assert rest != [] ==> s[|w|] == rest[0];
  }

  /** A whitespace character ends the first word of any text it follows. */
  lemma WordLengthBeforeSpace(a: string, c: char, b: string)
    requires IsSpace(c)
    ensures WordLength(a + [c] + b) == WordLength(a)
  {
    var s := a + [c] + b;
    var m := WordLength(a);
    assert forall i :: 0 <= i < |a| ==> s[i] == a[i];
    assert s[|a|] == c;
  }

  /** `str.split()` cuts at every whitespace character: splitting text with
      a whitespace character in it splits the two sides separately.  With
      `WordsOfWord` and `Words("") == []` this fixes every split point. */
  lemma {:induction false} WordsSplit(a: string, c: char, b: string)
    requires IsSpace(c)
    ensures Words(a + [c] + b) == Words(a) + Words(b)
    decreases |a|
  {
    var s := a + [c] + b;
    if |a| == 0 {
      assert s == [c] + b;
      assert s[1..] == b;
    } else if IsSpace(a[0]) {
      assert s[1..] == a[1..] + [c] + b;
      WordsSplit(a[1..], c, b);
    } else {
      var m := WordLength(a);
      WordLengthBeforeSpace(a, c, b);
      assert s[..m] == a[..m];
      assert s[m..] == a[m..] + [c] + b;
      WordsSplit(a[m..], c, b);
    }
  }

  /** A word followed by a space and more text splits into that word and
      the split of the rest. */
  lemma WordsOfWordThen(w: string, rest: string)
    requires IsWord(w)
    ensures Words(w + " " + rest) == [w] + Words(rest)
  {
    var s := w + (" " + rest);
    assert s == w + " " + rest;
    WordLengthOfWord(w, " " + rest);
    assert s[..|w|] == w;
    assert s[|w|..] == " " + rest;
    assert (" " + rest)[1..] == rest;
  }

  /** A single word splits into itself. */
  lemma WordsOfWord(w: string)
    requires IsWord(w)
    ensures Words(w) == [w]
  {
    WordLengthOfWord(w, []);
    assert w + [] == w;
    assert w[|w|..] == [];
  }

  /** Round trip: splitting words joined by single spaces gives the words
      back. */
  lemma {:induction false} WordsJoin(ws: seq<string>)
    requires forall i :: 0 <= i < |ws| ==> IsWord(ws[i])
    ensures Words(Join(ws)) == ws
  {
    if |ws| == 1 {
      WordsOfWord(ws[0]);
    } else if |ws| > 1 {
      WordsJoin(ws[1..]);
      WordsOfWordThen(ws[0], Join(ws[1..]));
    }
  }

  /** Text made of two plain-spaced parts is plain-spaced. */
  lemma PlainSpacedAppend(a: string, b: string)
    requires PlainSpaced(a) && PlainSpaced(b)
    ensures PlainSpaced(a + b)
  {
  }

  /** Words joined by single spaces contain only plain spaces, one fewer
      than there are words. */
  lemma {:induction false} JoinLayout(ws: seq<string>)
    requires forall i :: 0 <= i < |ws| ==> IsWord(ws[i])
    ensures PlainSpaced(Join(ws))
    ensures |Join(ws)| - |Letters(Join(ws))| == if |ws| == 0 then 0 else |ws| - 1
  {
    if |ws| == 1 {
      LettersOfWord(ws[0]);
    } else if |ws| > 1 {
      JoinLayout(ws[1..]);
      JoinStep(ws[0], Join(ws[1..]));
    }
  }

  /** One more word in front adds one plain space and no other whitespace. */
  lemma JoinStep(w: string, rest: string)
    requires IsWord(w) && PlainSpaced(rest)
    ensures PlainSpaced(w + " " + rest)
    ensures |w + " " + rest| - |Letters(w + " " + rest)| == 1 + |rest| - |Letters(rest)|
  {
    LettersOfWord(w);
    LettersAppend(w + " ", rest);
    LettersAppend(w, " ");
    assert Letters(" ") == "" by { assert " "[1..] == ""; }
    assert w + "" == w;
    PlainSpacedAppend(w, " ");
    PlainSpacedAppend(w + " ", rest);
  }

  /** Joining one more word adds a space and that word. */
  lemma {:induction false} JoinSnoc(ws: seq<string>, w: string)
    requires |ws| > 0
    ensures Join(ws + [w]) == Join(ws) + " " + w
  {
    if |ws| > 1 {
      assert (ws + [w])[1..] == ws[1..] + [w];
      JoinSnoc(ws[1..], w);
    } else {
      assert ws + [w] == [ws[0], w];
    }
  }

  /** The chart title reads as the first `min(4, n)` words of the title
      followed by the ellipsis as one more word; the ellipsis is there even
      when the title has four words or fewer. */
  lemma ChartTitleWords(title: string)
    ensures var ws := Words(title);
      var k := if |ws| <= MaxTitleWords then |ws| else MaxTitleWords;
      Words(ChartTitle(title)) == ws[..k] + ["\U{2026}"]
  {
    var ws := Words(title);
    var k := if |ws| <= MaxTitleWords then |ws| else MaxTitleWords;
    var kept := ws[..k];
    assert ws[..|ws|] == ws;
    assert IsWord("\U{2026}");
    if k == 0 {
      assert ChartTitle(title) == " " + "\U{2026}";
      WordsOfWord("\U{2026}");
      assert (" " + "\U{2026}")[1..] == "\U{2026}";
    } else {
      JoinSnoc(kept, "\U{2026}");
      assert ChartTitle(title) == Join(kept + ["\U{2026}"]);
      WordsJoin(kept + ["\U{2026}"]);
    }
  }
}

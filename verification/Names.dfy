/**
 Canonical names (src/memory_service/ontology/names.py).

 A name becomes a key by a chain of string passes. The chain is modelled pass by pass; what it
 computes is stated independently, as the hyphen-joined list of the alphanumeric words of the input.
 */
module Names {
  import opened Basics

  /** Python's Unicode behaviour the passes rely on: str.lower and the whitespace str.strip removes. */
  datatype CharTables = CharTables(lower: string -> string, isSpace: char -> bool)

  predicate IsAlnum(c: char) {
    'a' <= c <= 'z' || '0' <= c <= '9'
  }

  predicate IsKeyChar(c: char) {
    IsAlnum(c) || c == '-'
  }

  predicate AllKeyChars(s: string) {
    forall i :: 0 <= i < |s| ==> IsKeyChar(s[i])
  }

  predicate IsSeparator(c: char) {
    c == '-' || c == '_' || c == ' '
  }

  predicate AllPlain(s: string) {
    forall i :: 0 <= i < |s| ==> IsAlnum(s[i]) || IsSeparator(s[i])
  }

  /**
   Lower-casing leaves lower-case letters, digits, hyphens, underscores and spaces alone; none of
   [a-z0-9-] is whitespace.
   */
  ghost predicate Lawful(t: CharTables) {
    && (forall s: string :: AllPlain(s) ==> t.lower(s) == s)
    && (forall c: char :: IsKeyChar(c) ==> !t.isSpace(c))
  }

  // ---------------------------------------------------------------- the passes

  function LStrip(s: string, drop: char -> bool): string {
    if s != [] && drop(s[0]) then LStrip(s[1..], drop) else s
  }

  function RStrip(s: string, drop: char -> bool): string {
    if s != [] && drop(s[|s| - 1]) then RStrip(s[..|s| - 1], drop) else s
  }

  function Strip(s: string, drop: char -> bool): string {
    RStrip(LStrip(s, drop), drop)
  }

  predicate AllDropped(s: string, drop: char -> bool) {
    forall i :: 0 <= i < |s| ==> drop(s[i])
  }

  /** Stripping removes what may be dropped from both ends, and no more. */
  lemma StripTrims(a: string, s: string, b: string, drop: char -> bool)
    requires AllDropped(a, drop) && AllDropped(b, drop)
    requires s == "" || (!drop(s[0]) && !drop(s[|s| - 1]))
    ensures Strip(a + s + b, drop) == s
  {
    if s == "" {
      LStripTrims(a + b, "", drop);
      assert a + s + b == (a + b) + "";
    } else {
      LStripTrims(a, s + b, drop);
      assert a + s + b == a + (s + b);
      RStripTrims(s, b, drop);
    }
  }

  lemma {:induction false} LStripTrims(a: string, s: string, drop: char -> bool)
    requires AllDropped(a, drop) && (s == "" || !drop(s[0]))
    ensures LStrip(a + s, drop) == s
  {
    if a == "" {
      assert a + s == s;
    } else {
      LStripTrims(a[1..], s, drop);
      assert (a + s)[1..] == a[1..] + s;
    }
  }

  lemma {:induction false} RStripTrims(s: string, b: string, drop: char -> bool)
    requires AllDropped(b, drop) && (s == "" || !drop(s[|s| - 1]))
    ensures RStrip(s + b, drop) == s
    decreases |b|
  {
    if b == "" {
      assert s + b == s;
    } else {
      var n := |b| - 1;
      RStripTrims(s, b[..n], drop);
      assert (s + b)[..|s + b| - 1] == s + b[..n];
      assert drop(b[n]);
    }
  }

  /** Underscores and spaces become hyphens. */
  function Hyphenate(s: string): string {
    if s == [] then []
    else [if s[0] == '_' || s[0] == ' ' then '-' else s[0]] + Hyphenate(s[1..])
  }

  /** Everything outside [a-z0-9-] is deleted. */
  function KeepKeyChars(s: string): (r: string)
    ensures AllKeyChars(r)
  {
    if s == [] then []
    else (if IsKeyChar(s[0]) then [s[0]] else []) + KeepKeyChars(s[1..])
  }

  /** Runs of hyphens collapse to one hyphen. */
  function Collapse(s: string): string {
    if |s| <= 1 then s
    else if s[0] == '-' && s[1] == '-' then Collapse(s[1..])
    else [s[0]] + Collapse(s[1..])
  }

  function IsHyphen(): char -> bool {
    c => c == '-'
  }

  function Cleaned(t: CharTables, raw: string): (r: string)
    ensures AllKeyChars(r)
  {
    KeepKeyChars(Hyphenate(Strip(t.lower(raw), t.isSpace)))
  }

  function Normalize(t: CharTables, raw: string): string {
    Strip(Collapse(Cleaned(t, raw)), IsHyphen())
  }

  // ---------------------------------------------------------------- what a key is

  predicate IsWord(w: string) {
    w != [] && forall i :: 0 <= i < |w| ==> IsAlnum(w[i])
  }

  predicate AreWords(ws: seq<string>) {
    forall i :: 0 <= i < |ws| ==> IsWord(ws[i])
  }

  /** A key: [a-z0-9-] only, no hyphen at either end, no two hyphens in a row. */
  predicate IsKey(s: string) {
    && AllKeyChars(s)
    && (s != [] ==> s[0] != '-' && s[|s| - 1] != '-')
    && (forall i :: 0 <= i < |s| - 1 ==> !(s[i] == '-' && s[i + 1] == '-'))
  }

  /** Length of the alphanumeric run s starts with. */
  function RunLength(s: string): (n: nat)
    ensures n <= |s|
    ensures forall i :: 0 <= i < n ==> IsAlnum(s[i])
    ensures n < |s| ==> !IsAlnum(s[n])
  {
    if s == [] || !IsAlnum(s[0]) then 0 else 1 + RunLength(s[1..])
  }

  /** The maximal alphanumeric runs of s, in order. */
  function Words(s: string): (ws: seq<string>)
    ensures AreWords(ws)
    decreases |s|
  {
    if s == [] then []
    else if !IsAlnum(s[0]) then Words(s[1..])
    else [s[..RunLength(s)]] + Words(s[RunLength(s)..])
  }

  // ---------------------------------------------------------------- passes against words

  lemma {:induction false} LStripHyphens(s: string)
    ensures var r := LStrip(s, IsHyphen()); r == [] || r[0] != '-'
    ensures s != [] && s[0] != '-' ==> LStrip(s, IsHyphen()) == s
    decreases |s|
  {
    if s != [] && s[0] == '-' {
      LStripHyphens(s[1..]);
    }
  }

  /** An alphanumeric prefix survives stripping on the right. */
  lemma {:induction false} RStripAfterWord(w: string, s: string)
    requires IsWord(w)
    ensures RStrip(w + s, IsHyphen()) == w + RStrip(s, IsHyphen())
    decreases |s|
  {
    if s == [] {
      assert w + s == w;
    } else {
      assert (w + s)[|w + s| - 1] == s[|s| - 1];
      if s[|s| - 1] == '-' {
        assert (w + s)[..|w + s| - 1] == w + s[..|s| - 1];
        RStripAfterWord(w, s[..|s| - 1]);
      }
    }
  }

  lemma {:induction false} CollapseAfterWord(w: string, s: string)
    requires IsWord(w)
    ensures Collapse(w + s) == w + Collapse(s)
    decreases |w|
  {
    if |w| == 1 {
      assert (w + s)[1..] == s;
      if s == [] { assert w + s == w; }
    } else {
      assert (w + s)[1..] == w[1..] + s;
      assert IsAlnum(w[0]);
      CollapseAfterWord(w[1..], s);
      assert w + Collapse(s) == [w[0]] + (w[1..] + Collapse(s));
    }
  }

  /** Collapsing a string that starts with hyphens leaves one, followed by the rest collapsed. */
  lemma {:induction false} CollapseHyphens(s: string)
    requires s != [] && s[0] == '-'
    ensures Collapse(s) == "-" + Collapse(LStrip(s, IsHyphen()))
    ensures |LStrip(s, IsHyphen())| < |s|
    ensures Words(LStrip(s, IsHyphen())) == Words(s)
    decreases |s|
  {
    if |s| == 1 {
      assert s == "-";
      assert s[1..] == [];
      assert LStrip(s, IsHyphen()) == [];
    } else if s[1] == '-' {
      CollapseHyphens(s[1..]);
    } else {
      LStripHyphens(s[1..]);
    }
  }

  lemma {:induction false} LStripKeepsKeyChars(s: string)
    requires AllKeyChars(s)
    ensures AllKeyChars(LStrip(s, IsHyphen()))
  {
    if s != [] && s[0] == '-' {
      LStripKeepsKeyChars(s[1..]);
    }
  }

  /** Collapsing and right-trimming a string that does not start with a hyphen joins its words. */
  lemma {:induction false} CollapseTrimJoins(s: string)
    requires AllKeyChars(s) && (s != [] ==> s[0] != '-')
    ensures RStrip(Collapse(s), IsHyphen()) == Join("-", Words(s))
    decreases |s|
  {
    if s != [] {
      var n := RunLength(s);
      var w, rest := s[..n], s[n..];
      assert IsKeyChar(s[0]);
      assert s == w + rest;
      CollapseAfterWord(w, rest);
      RStripAfterWord(w, Collapse(rest));
      if rest == [] {
        assert Words(s) == [w] + [];
      } else {
        assert IsKeyChar(s[n]) && rest[0] == '-';
        CollapseHyphens(rest);
        LStripHyphens(rest);
        LStripKeepsKeyChars(rest);
        var tail := LStrip(rest, IsHyphen());
        CollapseTrimJoins(tail);
        JoinAfterHyphen(w, tail);
        assert Words(s) == [w] + Words(tail);
      }
    }
  }

  /** A hyphen between a word and what follows is kept exactly when words follow. */
  lemma JoinAfterHyphen(w: string, tail: string)
    requires AllKeyChars(tail) && (tail != [] ==> tail[0] != '-')
    requires RStrip(Collapse(tail), IsHyphen()) == Join("-", Words(tail))
    ensures w + RStrip("-" + Collapse(tail), IsHyphen()) == Join("-", [w] + Words(tail))
  {
    if tail == [] {
      assert Collapse(tail) == [] && Words(tail) == [];
      assert RStrip("-" + [], IsHyphen()) == [];
      assert Join("-", [w] + []) == w;
    } else {
      assert IsKeyChar(tail[0]);
      CollapseStart(tail);
      RStripAfterHyphen(Collapse(tail));
      assert Words(tail) != [];
      assert ([w] + Words(tail))[1..] == Words(tail);
    }
  }

  lemma {:induction false} CollapseStart(s: string)
    requires s != []
    ensures Collapse(s) != [] && Collapse(s)[0] == s[0]
    decreases |s|
  {
    if |s| > 1 && s[0] == '-' && s[1] == '-' {
      CollapseStart(s[1..]);
    }
  }

  lemma {:induction false} RStripAfterHyphen(s: string)
    ensures s != [] && s[0] != '-' ==> RStrip("-" + s, IsHyphen()) == "-" + RStrip(s, IsHyphen())
    decreases |s|
  {
    if s != [] && s[0] != '-' && s[|s| - 1] == '-' {
      var t := "-" + s;
      assert t[|t| - 1] == '-' && t[..|t| - 1] == "-" + s[..|s| - 1];
      RStripAfterHyphen(s[..|s| - 1]);
    }
  }

  /** Collapse keeps the first character, and stripping a leading hyphen first changes nothing. */
  lemma {:induction false} CollapseStripJoins(s: string)
    requires AllKeyChars(s)
    ensures Strip(Collapse(s), IsHyphen()) == Join("-", Words(s))
  {
    if s != [] {
      CollapseStart(s);
      if s[0] == '-' {
        CollapseHyphens(s);
        LStripHyphens(s);
        LStripKeepsKeyChars(s);
        var tail := LStrip(s, IsHyphen());
        assert Collapse(s)[1..] == Collapse(tail);
        if tail != [] { CollapseStart(tail); }
        LStripHyphens(Collapse(tail));
        CollapseTrimJoins(tail);
      } else {
        LStripHyphens(Collapse(s));
        CollapseTrimJoins(s);
      }
    }
  }

  // ---------------------------------------------------------------- main results

  /** The key of a name is the hyphen-joined list of the words left after cleaning. */
  lemma NormalizeJoinsWords(t: CharTables, raw: string)
    ensures Normalize(t, raw) == Join("-", Words(Cleaned(t, raw)))
  {
    CollapseStripJoins(Cleaned(t, raw));
  }

  // ---------------------------------------------------------------- keys without the passes

  /** The pieces of s between hyphens, underscores and spaces. */
  function Split(s: string): (pieces: seq<string>)
    ensures pieces != []
  {
    if s == "" then [""]
    else
      var rest := Split(s[1..]);
      if IsSeparator(s[0]) then [""] + rest else [[s[0]] + rest[0]] + rest[1..]
  }

  /** What is left of a piece: everything outside [a-z0-9] is deleted. */
  function Letters(s: string): string {
    if s == "" then "" else (if IsAlnum(s[0]) then [s[0]] else "") + Letters(s[1..])
  }

  /** The letters of the pieces that have any. */
  function LettersOf(pieces: seq<string>): seq<string> {
    if pieces == [] then []
    else (if Letters(pieces[0]) == "" then [] else [Letters(pieces[0])]) + LettersOf(pieces[1..])
  }

  lemma {:induction false} RunOfWord(w: string, s: string)
    requires (forall i :: 0 <= i < |w| ==> IsAlnum(w[i])) && (s == "" || !IsAlnum(s[0]))
    ensures RunLength(w + s) == |w|
  {
    if w == "" {
      assert w + s == s;
    } else {
      assert (w + s)[1..] == w[1..] + s;
      RunOfWord(w[1..], s);
    }
  }

  /** A word up to a hyphen, and the words after it. */
  lemma WordsToHyphen(w: string, s: string)
    requires forall i :: 0 <= i < |w| ==> IsAlnum(w[i])
    ensures Words(w + ("-" + s)) == Kept(w) + Words(s)
    ensures Words(w) == Kept(w)
  {
    var tail := "-" + s;
    assert tail[1..] == s;
    RunOfWord(w, tail);
    RunOfWord(w, "");
    assert w + "" == w;
    if w == "" {
      assert w + tail == tail;
      WordsSkip(tail);
    } else {
      WordsRun(w + tail);
      WordsRun(w);
      assert (w + tail)[..|w|] == w && (w + tail)[|w|..] == tail && w[|w|..] == "";
      WordsSkip(tail);
    }
  }

  function Kept(w: string): seq<string> {
    if w == "" then [] else [w]
  }

  /** The letters of the first piece, and those of the other pieces. */
  function FirstLetters(s: string): string {
    if s == "" || IsSeparator(s[0]) then "" else (if IsAlnum(s[0]) then [s[0]] else "") + FirstLetters(s[1..])
  }

  function LaterLetters(s: string): seq<string> {
    if s == "" then []
    else if IsSeparator(s[0]) then Kept(FirstLetters(s[1..])) + LaterLetters(s[1..])
    else LaterLetters(s[1..])
  }

  lemma {:induction false} PiecesTogether(s: string)
    ensures Letters(Split(s)[0]) == FirstLetters(s) && LettersOf(Split(s)[1..]) == LaterLetters(s)
    ensures LettersOf(Split(s)) == Kept(FirstLetters(s)) + LaterLetters(s)
  {
    if s == "" {
      assert Split(s)[1..] == [];
    } else {
      var rest := Split(s[1..]);
      PiecesTogether(s[1..]);
      if IsSeparator(s[0]) {
        assert Split(s)[1..] == rest;
      } else {
        assert ([s[0]] + rest[0])[1..] == rest[0] && Split(s)[1..] == rest[1..];
      }
    }
  }

  lemma PassedLetter(w: string, c: char, rest: string, first: string, later: seq<string>)
    requires Words((w + [c]) + rest) == Kept((w + [c]) + first) + later
    ensures Words(w + ([c] + rest)) == Kept(w + ([c] + first)) + later
  {
    AppendAssociative(w, [c], rest);
    AppendAssociative(w, [c], first);
  }

  /** The passes after stripping, read against the pieces: w is what they have kept of the current piece. */
  lemma {:induction false} PassesGivePieces(w: string, s: string)
    requires forall i :: 0 <= i < |w| ==> IsAlnum(w[i])
    ensures Words(w + KeepKeyChars(Hyphenate(s))) == Kept(w + FirstLetters(s)) + LaterLetters(s)
    decreases |s|
  {
    if s == "" {
      WordsToHyphen(w, "");
      assert w + "" == w;
    } else {
      var c, t := s[0], s[1..];
      HyphenateFirst(s);
      if IsSeparator(c) {
        PassesGivePieces("", t);
        WordsToHyphen(w, KeepKeyChars(Hyphenate(t)));
        AppendNothing(KeepKeyChars(Hyphenate(t)));
        AppendNothing(FirstLetters(t));
        AppendNothing(w);
      } else if IsAlnum(c) {
        PassesGivePieces(w + [c], t);
        PassedLetter(w, c, KeepKeyChars(Hyphenate(t)), FirstLetters(t), LaterLetters(t));
      } else {
        PassesGivePieces(w, t);
        AppendNothing(FirstLetters(t));
      }
    }
  }

  lemma HyphenateFirst(s: string)
    requires s != ""
    ensures var c, rest := s[0], KeepKeyChars(Hyphenate(s[1..]));
            KeepKeyChars(Hyphenate(s)) == if IsSeparator(c) then "-" + rest else if IsAlnum(c) then [c] + rest else rest
  {
    var c := s[0];
    var first := if c == '_' || c == ' ' then '-' else c;
    assert Hyphenate(s)[0] == first && Hyphenate(s)[1..] == Hyphenate(s[1..]);
  }

  /** What stripping removes is no letter or digit, so it leaves no trace in the pieces. */
  lemma DroppedAtStart(s: string)
    requires s != "" && !IsAlnum(s[0])
    ensures LettersOf(Split(s)) == LettersOf(Split(s[1..]))
  {
    PiecesTogether(s);
    PiecesTogether(s[1..]);
    assert "" + FirstLetters(s[1..]) == FirstLetters(s[1..]);
  }

  lemma {:induction false} DroppedAtEnd(s: string, c: char)
    requires !IsAlnum(c)
    ensures FirstLetters(s + [c]) == FirstLetters(s) && LaterLetters(s + [c]) == LaterLetters(s)
    decreases |s|
  {
    if s == "" {
      assert s + [c] == [c] && [c][1..] == "";
    } else {
      assert (s + [c])[1..] == s[1..] + [c];
      DroppedAtEnd(s[1..], c);
    }
  }

  lemma {:induction false} LStripKeepsPieces(s: string, drop: char -> bool)
    requires forall c: char :: IsAlnum(c) ==> !drop(c)
    ensures LettersOf(Split(LStrip(s, drop))) == LettersOf(Split(s))
  {
    if s != "" && drop(s[0]) {
      LStripKeepsPieces(s[1..], drop);
      DroppedAtStart(s);
    }
  }

  lemma {:induction false} RStripKeepsPieces(s: string, drop: char -> bool)
    requires forall c: char :: IsAlnum(c) ==> !drop(c)
    ensures LettersOf(Split(RStrip(s, drop))) == LettersOf(Split(s))
    decreases |s|
  {
    if s != "" && drop(s[|s| - 1]) {
      var shorter, last := s[..|s| - 1], s[|s| - 1];
      RStripKeepsPieces(shorter, drop);
      assert s == shorter + [last];
      DroppedAtEnd(shorter, last);
      PiecesTogether(s);
      PiecesTogether(shorter);
    }
  }

  /**
   The key of a name, whatever the name: its lower-cased form is cut at hyphens, underscores and spaces,
   everything outside [a-z0-9] is deleted from the pieces, and those that are not empty are joined by
   hyphens. Names that agree in lower case share their key.
   */
  lemma NormalizeByPieces(t: CharTables, raw: string)
    requires Lawful(t)
    ensures Normalize(t, raw) == Join("-", LettersOf(Split(t.lower(raw))))
    ensures forall other: string :: t.lower(other) == t.lower(raw) ==> Normalize(t, other) == Normalize(t, raw)
  {
    var lower := t.lower(raw);
    var stripped := Strip(lower, t.isSpace);
    NormalizeJoinsWords(t, raw);
    PassesGivePieces("", stripped);
    assert "" + KeepKeyChars(Hyphenate(stripped)) == Cleaned(t, raw);
    PiecesTogether(stripped);
    assert "" + FirstLetters(stripped) == FirstLetters(stripped);
    forall c: char | IsAlnum(c) ensures !t.isSpace(c) { assert IsKeyChar(c); }
    LStripKeepsPieces(lower, t.isSpace);
    RStripKeepsPieces(LStrip(lower, t.isSpace), t.isSpace);
  }

  /** A separator between two strings separates their pieces. */
  lemma {:induction false} PiecesAround(a: string, c: char, b: string)
    requires IsSeparator(c)
    ensures FirstLetters(a + ([c] + b)) == FirstLetters(a)
    ensures LaterLetters(a + ([c] + b)) == LaterLetters(a) + (Kept(FirstLetters(b)) + LaterLetters(b))
    decreases |a|
  {
    var s := a + ([c] + b);
    if a == "" {
      assert s[0] == c && s[1..] == b;
    } else {
      assert s[0] == a[0] && s[1..] == a[1..] + ([c] + b);
      PiecesAround(a[1..], c, b);
      AppendAssociative(Kept(FirstLetters(a[1..])), LaterLetters(a[1..]), Kept(FirstLetters(b)) + LaterLetters(b));
    }
  }

  lemma {:induction false} WordIsPiece(w: string)
    requires forall i :: 0 <= i < |w| ==> IsAlnum(w[i])
    ensures FirstLetters(w) == w && LaterLetters(w) == []
  {
    if w != "" { WordIsPiece(w[1..]); }
  }

  /** Capitals count: "Julia Horrocks" has the key of "julia horrocks". */
  lemma CapitalsCount(t: CharTables, raw: string)
    requires Lawful(t) && t.lower(raw) == "julia" + ([' '] + "horrocks")
    ensures Normalize(t, raw) == "julia-horrocks"
  {
    NormalizeByPieces(t, raw);
    PiecesTogether(t.lower(raw));
    TwoWords("julia", "horrocks");
  }

  lemma TwoWords(a: string, b: string)
    requires IsWord(a) && IsWord(b)
    ensures Join("-", Kept(FirstLetters(a + ([' '] + b))) + LaterLetters(a + ([' '] + b))) == a + "-" + b
  {
    PiecesAround(a, ' ', b);
    WordIsPiece(a);
    WordIsPiece(b);
    assert [a, b][1..] == [b];
    assert Kept(a) + ([] + (Kept(b) + [])) == [a, b];
  }

  /** Anything else inside a word is deleted. */
  lemma {:induction false} DeletedInside(a: string, c: char, b: string)
    requires (forall i :: 0 <= i < |a| ==> IsAlnum(a[i])) && !IsAlnum(c) && !IsSeparator(c)
    ensures FirstLetters(a + ([c] + b)) == a + FirstLetters(b) && LaterLetters(a + ([c] + b)) == LaterLetters(b)
    decreases |a|
  {
    var s := a + ([c] + b);
    if a == "" {
      assert s[0] == c && s[1..] == b;
      AppendNothing(FirstLetters(b));
    } else {
      assert s[0] == a[0] && s[1..] == a[1..] + ([c] + b);
      DeletedInside(a[1..], c, b);
    }
  }

  /** Punctuation is deleted, not turned into a hyphen: "O'Neil" has the key "oneil". */
  lemma PunctuationIsDeleted(t: CharTables, raw: string)
    requires Lawful(t) && t.lower(raw) == "o" + (['\''] + "neil")
    ensures Normalize(t, raw) == "oneil"
  {
    NormalizeByPieces(t, raw);
    PiecesTogether(t.lower(raw));
    DeletedInside("o", '\'', "neil");
    WordIsPiece("neil");
  }

  lemma {:induction false} JoinIsKey(ws: seq<string>)
    requires AreWords(ws)
    ensures IsKey(Join("-", ws))
    ensures ws != [] ==> Join("-", ws) != [] && IsAlnum(Join("-", ws)[0])
  {
    if |ws| > 1 {
      JoinIsKey(ws[1..]);
      var w, rest := ws[0], Join("-", ws[1..]);
      var s := w + "-" + rest;
      forall i | 0 <= i < |s| ensures IsKeyChar(s[i]) {
        if i < |w| { assert s[i] == w[i]; }
        else if i > |w| { assert s[i] == rest[i - |w| - 1]; }
      }
      forall i | 0 <= i < |s| - 1 ensures !(s[i] == '-' && s[i + 1] == '-') {
        if i < |w| { assert s[i] == w[i]; }
        else if i > |w| { assert s[i] == rest[i - |w| - 1] && s[i + 1] == rest[i - |w|]; }
      }
    } else if |ws| == 1 {
      assert IsWord(ws[0]);
    }
  }

  /** Past its first word, a key holds one hyphen and then a non-empty key. */
  lemma KeyAfterFirstWord(s: string)
    requires IsKey(s) && s != [] && RunLength(s) < |s|
    ensures var n := RunLength(s); s[n] == '-' && n + 1 < |s| && IsAlnum(s[n + 1]) && IsKey(s[n + 1..])
  {
    var n := RunLength(s);
    assert IsKeyChar(s[n]) && s[n] == '-';
    assert s[|s| - 1] != '-';
    assert IsKeyChar(s[n + 1]);
    KeyTail(s, n + 1);
  }

  /** From a letter or digit on, the rest of a key is a key. */
  lemma KeyTail(s: string, k: nat)
    requires IsKey(s) && k < |s| && s[k] != '-'
    ensures IsKey(s[k..])
  {
    var rest := s[k..];
    forall i | 0 <= i < |rest|
      ensures IsKeyChar(rest[i]) && (i + 1 < |rest| ==> !(rest[i] == '-' && rest[i + 1] == '-')) {
      assert rest[i] == s[k + i];
      if i + 1 < |rest| { assert rest[i + 1] == s[k + i + 1]; }
    }
    assert rest[|rest| - 1] == s[|s| - 1] && rest[0] == s[k];
  }

  /** Skipping the hyphen after the first word changes no word. */
  lemma WordsAfterFirst(s: string, n: nat)
    requires s != [] && IsAlnum(s[0]) && n == RunLength(s) && n < |s| && s[n] == '-'
    ensures Words(s) == [s[..n]] + Words(s[n + 1..])
  {
    WordsRun(s);
    WordsSkip(s[n..]);
    assert s[n..][1..] == s[n + 1..];
  }

  lemma WordsRun(s: string)
    requires s != [] && IsAlnum(s[0])
    ensures Words(s) == [s[..RunLength(s)]] + Words(s[RunLength(s)..])
  {
  }

  lemma WordsSkip(s: string)
    requires s != [] && !IsAlnum(s[0])
    ensures Words(s) == Words(s[1..])
  {
  }

  lemma WholeWord(s: string)
    requires s != [] && RunLength(s) == |s|
    ensures Words(s) == [s]
  {
    assert s[..|s|] == s && s[|s|..] == [];
    assert Words([]) == [];
  }

  lemma {:induction false} KeyIsJoinOfItsWords(s: string)
    requires IsKey(s)
    ensures Join("-", Words(s)) == s
    decreases |s|
  {
    if s != [] {
      var n := RunLength(s);
      if n == |s| {
        WholeWord(s);
      } else {
        var rest := s[n + 1..];
        KeyAfterFirstWord(s);
        assert IsKeyChar(s[0]);
        WordsAfterFirst(s, n);
        KeyIsJoinOfItsWords(rest);
        JoinOfOneMore(s[..n], Words(rest));
        AroundHyphen(s, n);
      }
    }
  }

  lemma AroundHyphen(s: string, n: nat)
    requires n < |s| && s[n] == '-'
    ensures s == s[..n] + "-" + s[n + 1..]
  {
  }

  lemma JoinOfOneMore(w: string, ws: seq<string>)
    requires Join("-", ws) != []
    ensures Join("-", [w] + ws) == w + "-" + Join("-", ws)
  {
    assert ([w] + ws)[1..] == ws;
  }

  lemma {:induction false} KeepKeyCharsIdentity(s: string)
    requires AllKeyChars(s)
    ensures KeepKeyChars(s) == s && Hyphenate(s) == s
  {
    if s != [] {
      assert IsKeyChar(s[0]);
      KeepKeyCharsIdentity(s[1..]);
    }
  }

  lemma CleanedIdentity(t: CharTables, s: string)
    requires Lawful(t) && AllKeyChars(s)
    ensures Cleaned(t, s) == s
  {
    assert AllPlain(s) by {
      forall i | 0 <= i < |s| ensures IsAlnum(s[i]) || IsSeparator(s[i]) { assert IsKeyChar(s[i]); }
    }
    assert t.lower(s) == s;
    if s != [] {
      assert IsKeyChar(s[0]) && IsKeyChar(s[|s| - 1]);
    }
    KeepKeyCharsIdentity(s);
  }

  /** The strings normalization leaves alone are exactly the hyphen-joined lists of words. */
  lemma NormalizeFixpoints(t: CharTables, s: string)
    requires Lawful(t)
    ensures Normalize(t, s) == s <==> IsKey(s)
    ensures IsKey(s) <==> exists ws :: AreWords(ws) && s == Join("-", ws)
  {
    NormalizeJoinsWords(t, s);
    JoinIsKey(Words(Cleaned(t, s)));
    if IsKey(s) {
      CleanedIdentity(t, s);
      KeyIsJoinOfItsWords(s);
      assert AreWords(Words(s)) && s == Join("-", Words(s));
    }
    if ws :| AreWords(ws) && s == Join("-", ws) {
      JoinIsKey(ws);
    }
  }

  /** Every result is a key, so a second normalization changes nothing. */
  lemma NormalizeIdempotent(t: CharTables, raw: string)
    requires Lawful(t)
    ensures IsKey(Normalize(t, raw))
    ensures Normalize(t, Normalize(t, raw)) == Normalize(t, raw)
  {
    NormalizeJoinsWords(t, raw);
    JoinIsKey(Words(Cleaned(t, raw)));
    NormalizeFixpoints(t, Normalize(t, raw));
  }

  // ---------------------------------------------------------------- separators

  /** Words with one separator character between neighbours. */
  function Interleave(ws: seq<string>, separators: seq<char>): string
    requires |separators| >= |ws| - 1
  {
    if ws == [] then []
    else if |ws| == 1 then ws[0]
    else ws[0] + [separators[0]] + Interleave(ws[1..], separators[1..])
  }

  predicate AreSeparators(cs: seq<char>) {
    forall i :: 0 <= i < |cs| ==> IsSeparator(cs[i])
  }

  lemma {:induction false} HyphenateAppend(a: string, b: string)
    ensures Hyphenate(a + b) == Hyphenate(a) + Hyphenate(b)
  {
    if a == [] {
      assert a + b == b;
    } else {
      assert (a + b)[1..] == a[1..] + b;
      HyphenateAppend(a[1..], b);
    }
  }

  lemma {:induction false} HyphenateWord(w: string)
    requires forall i :: 0 <= i < |w| ==> IsAlnum(w[i])
    ensures Hyphenate(w) == w
  {
    if w != [] { HyphenateWord(w[1..]); }
  }

  lemma HyphenateSeparator(c: char)
    requires IsSeparator(c)
    ensures Hyphenate([c]) == "-"
  {
    assert [c][1..] == [];
  }

  lemma {:induction false} HyphenateJoin(ws: seq<string>, cs: seq<char>)
    requires AreWords(ws) && AreSeparators(cs) && |cs| >= |ws| - 1
    ensures Hyphenate(Interleave(ws, cs)) == Join("-", ws)
    ensures AllPlain(Interleave(ws, cs))
    ensures ws != [] ==> Interleave(ws, cs) != [] && IsAlnum(Interleave(ws, cs)[0])
    ensures ws != [] ==> IsAlnum(Interleave(ws, cs)[|Interleave(ws, cs)| - 1])
  {
    if ws != [] {
      assert IsWord(ws[0]);
      HyphenateWord(ws[0]);
      if |ws| > 1 {
        var rest := Interleave(ws[1..], cs[1..]);
        HyphenateJoin(ws[1..], cs[1..]);
        HyphenateSeparator(cs[0]);
        HyphenateAppend(ws[0] + [cs[0]], rest);
        HyphenateAppend(ws[0], [cs[0]]);
        PlainJoin(ws[0], cs[0], rest);
      }
    }
  }

  lemma PlainJoin(w: string, c: char, rest: string)
    requires IsWord(w) && IsSeparator(c) && AllPlain(rest)
    ensures AllPlain(w + [c] + rest)
  {
    var s := w + [c] + rest;
    forall i | 0 <= i < |s| ensures IsAlnum(s[i]) || IsSeparator(s[i]) {
      if i < |w| { assert s[i] == w[i]; } else if i > |w| { assert s[i] == rest[i - |w| - 1]; }
    }
  }

  /** Hyphens, underscores and spaces between words are interchangeable: all give the hyphenated key. */
  lemma SeparatorsAreInterchangeable(t: CharTables, ws: seq<string>, cs: seq<char>)
    requires Lawful(t) && AreWords(ws) && AreSeparators(cs) && |cs| >= |ws| - 1
    ensures Normalize(t, Interleave(ws, cs)) == Join("-", ws)
  {
    var s := Interleave(ws, cs);
    HyphenateJoin(ws, cs);
    if ws != [] {
      assert IsKeyChar(s[0]) && IsKeyChar(s[|s| - 1]);
    }
    assert Strip(t.lower(s), t.isSpace) == s;
    JoinIsKey(ws);
    KeepKeyCharsIdentity(Join("-", ws));
    assert Cleaned(t, s) == Join("-", ws);
    CleanedIdentity(t, Join("-", ws));
    NormalizeFixpoints(t, Join("-", ws));
  }
}

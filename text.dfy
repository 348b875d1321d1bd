/**
  The character classes of the rule language's lexer and the pure facts
  about strings the parser's contracts are stated with.  Each regular
  expression of the lexer is a character class (or a class followed by a
  run of another); the predicates below are those classes.
 */
module Text {

  /** `[A-Za-z0-9]` */
  predicate IsAlnum(c: char) {
    ('A' <= c <= 'Z') || ('a' <= c <= 'z') || ('0' <= c <= '9')
  }

  /** `[A-Za-z0-9\-]` */
  predicate IsWordChar(c: char) {
    IsAlnum(c) || c == '-'
  }

  /** `[ \t]` */
  predicate IsBlank(c: char) {
    c == ' ' || c == '\t'
  }

  /** `[\r\n]` */
  predicate IsLineBreak(c: char) {
    c == '\r' || c == '\n'
  }

  /** `[\r\n \t]` */
  predicate IsSpace(c: char) {
    IsBlank(c) || IsLineBreak(c)
  }

  /** `[-+]` */
  predicate IsSign(c: char) {
    c == '-' || c == '+'
  }

  /** The classes over which the lexer takes longest runs; `LineChars` is the regular expression `.`, anything but `\n`. */
  datatype Class = WordChars | Blanks | Spaces | LineChars

  predicate In(cls: Class, c: char) {
    match cls
    case WordChars => IsWordChar(c)
    case Blanks => IsBlank(c)
    case Spaces => IsSpace(c)
    case LineChars => c != '\n'
  }

  /** The end of the longest run of `cls` characters of `s` starting at `i`. */
  function RunEnd(s: string, i: nat, cls: Class): (e: nat)
    requires i <= |s|
    ensures i <= e <= |s|
    ensures e == |s| || !In(cls, s[e])
    decreases |s| - i
  {
    if i < |s| && In(cls, s[i]) then RunEnd(s, i + 1, cls) else i
  }

  /** Every character of a run is of its class. */
  lemma {:induction false} RunEndIn(s: string, i: nat, cls: Class)
    requires i <= |s|
    ensures forall k :: i <= k < RunEnd(s, i, cls) ==> In(cls, s[k])
    decreases |s| - i
  {
    if i < |s| && In(cls, s[i]) {
      RunEndIn(s, i + 1, cls);
    }
  }

  /** A run that starts with `cls` characters ends where the run after them ends. */
  lemma {:induction false} RunEndSkip(s: string, i: nat, j: nat, cls: Class)
    requires i <= j <= |s|
    requires forall k :: i <= k < j ==> In(cls, s[k])
    ensures RunEnd(s, i, cls) == RunEnd(s, j, cls)
    decreases j - i
  {
    if i < j {
      RunEndSkip(s, i + 1, j, cls);
    }
  }

  /** A word, `[A-Za-z0-9][A-Za-z0-9\-]*`: entity names, rule names and binds. */
  predicate IsWord(w: string) {
    |w| >= 1 && IsAlnum(w[0]) && forall k :: 1 <= k < |w| ==> IsWordChar(w[k])
  }

  /**
    A tag name, `[A-Za-z0-9][A-Za-z0-9\-]+!?`: at least two characters,
    alphanumeric first, and an optional trailing `!`.
   */
  predicate IsTagName(w: string) {
    && |w| >= 2
    && IsAlnum(w[0])
    && (forall k :: 1 <= k < |w| - 1 ==> IsWordChar(w[k]))
    && (IsWordChar(w[|w| - 1]) || (w[|w| - 1] == '!' && |w| >= 3))
  }

  predicate NoNewline(s: string) {
    forall k :: 0 <= k < |s| ==> s[k] != '\n'
  }

  /** `s[i..j]` with every space and tab removed. */
  function Stripped(s: string, i: nat, j: nat): string
    requires i <= j <= |s|
    decreases j
  {
    if i == j then []
    else Stripped(s, i, j - 1) + (if IsBlank(s[j - 1]) then [] else [s[j - 1]])
  }

  /** Removing blanks distributes over splitting a slice at `j`. */
  lemma {:induction false} StrippedSplit(s: string, i: nat, j: nat, k: nat)
    requires i <= j <= k <= |s|
    ensures Stripped(s, i, k) == Stripped(s, i, j) + Stripped(s, j, k)
    decreases k
  {
    if j < k {
      StrippedSplit(s, i, j, k - 1);
    }
  }

  /** A slice of blanks only vanishes. */
  lemma {:induction false} StrippedBlanks(s: string, i: nat, j: nat)
    requires i <= j <= |s|
    requires forall k :: i <= k < j ==> IsBlank(s[k])
    ensures Stripped(s, i, j) == []
    decreases j
  {
    if i < j {
      StrippedBlanks(s, i, j - 1);
    }
  }

  /** A slice without blanks is kept whole. */
  lemma {:induction false} StrippedPlain(s: string, i: nat, j: nat)
    requires i <= j <= |s|
    requires forall k :: i <= k < j ==> !IsBlank(s[k])
    ensures Stripped(s, i, j) == s[i..j]
    decreases j
  {
    if i < j {
      StrippedPlain(s, i, j - 1);
      assert s[i..j] == s[i..j - 1] + [s[j - 1]];
    }
  }

  /** A non-blank character followed by blanks strips to that character. */
  lemma StrippedLead(s: string, i: nat, j: nat)
    requires i < j <= |s| && !IsBlank(s[i])
    requires forall k :: i < k < j ==> IsBlank(s[k])
    ensures Stripped(s, i, j) == [s[i]]
  {
    StrippedBlanks(s, i + 1, j);
    StrippedSplit(s, i, i + 1, j);
  }

  /** The words of `ws` separated by commas. */
  function CommaJoined(ws: seq<string>): string
    decreases |ws|
  {
    if |ws| == 0 then ""
    else if |ws| == 1 then ws[0]
    else CommaJoined(ws[..|ws| - 1]) + "," + ws[|ws| - 1]
  }

  predicate NoComma(w: string) {
    forall k :: 0 <= k < |w| ==> w[k] != ','
  }

  predicate CommaFreeWords(ws: seq<string>) {
    forall i :: 0 <= i < |ws| ==> |ws[i]| > 0 && NoComma(ws[i])
  }

  /** How many words went into a comma-joined string can be read off it. */
  lemma JoinedShape(ws: seq<string>)
    requires CommaFreeWords(ws)
    ensures |ws| == 0 <==> CommaJoined(ws) == ""
    ensures |ws| == 1 ==> NoComma(CommaJoined(ws))
    ensures |ws| >= 2 ==> !NoComma(CommaJoined(ws))
  {
    if |ws| >= 2 {
      var pre := CommaJoined(ws[..|ws| - 1]);
      assert CommaJoined(ws)[|pre|] == ',';
    } else if |ws| == 1 {
      assert |ws[0]| > 0;
    }
  }

  /** The comma-free last word after a comma is determined by the string. */
  lemma SameLastWord(ja: string, wa: string, jb: string, wb: string)
    requires ja + "," + wa == jb + "," + wb
    requires NoComma(wa) && NoComma(wb)
    ensures wa == wb && ja == jb
  {
    var s := ja + "," + wa;
    assert s[|s| - |wa| - 1] == ',' && s[|s| - |wb| - 1] == ',';
    assert forall k :: |s| - |wa| <= k < |s| ==> s[k] == wa[k - (|s| - |wa|)];
    assert forall k :: |s| - |wb| <= k < |s| ==> s[k] == wb[k - (|s| - |wb|)];
    assert |wa| == |wb|;
    assert wa == s[|s| - |wa|..] == wb;
    assert ja == s[..|ja|] == jb;
  }

  /**
    Comma-joining non-empty, comma-free words loses nothing: the words of
    a bind list are determined by the text between the parentheses.
   */
  lemma {:induction false} CommaJoinedInjective(a: seq<string>, b: seq<string>)
    requires CommaFreeWords(a) && CommaFreeWords(b)
    requires CommaJoined(a) == CommaJoined(b)
    ensures a == b
    decreases |a|
  {
    JoinedShape(a);
    JoinedShape(b);
    if |a| >= 2 {
      var wa, wb := a[|a| - 1], b[|b| - 1];
      SameLastWord(CommaJoined(a[..|a| - 1]), wa, CommaJoined(b[..|b| - 1]), wb);
      CommaJoinedInjective(a[..|a| - 1], b[..|b| - 1]);
      assert a == a[..|a| - 1] + [wa] && b == b[..|b| - 1] + [wb];
    }
  }
}

/**
  The lexer and recursive-descent parser of the rule and entity language.

  A rule reads

      # pick-up
      > {dwarf} picks up {thing}
      dwarf +dwarf -hold
      thing +holdable
      ->
      dwarf +hold(thing)

  and an entity list is a block of the same pattern lines.  The parser is
  an object holding the text and a cursor `pos` that every lexer moves
  forward; an assertion failure of the source is a `Fail` carrying the
  assertion's message.
 */
module DbParse {
  import opened Wrappers
  import opened Text

  /** `(sign == '+', name, binds)` as `parse_tag` returns it. */
  datatype ParsedTag = ParsedTag(sign: bool, name: string, binds: seq<string>)

  /** `(entity, tag)` as `parse_patterns` yields it. */
  datatype ParsedPattern = ParsedPattern(entity: string, tag: ParsedTag)

  /** `(name, desc, pre, post)` as `parse_rule` returns it. */
  datatype ParsedRule = ParsedRule(name: string, desc: string, pre: seq<ParsedPattern>, post: seq<ParsedPattern>)

  /** A positive tag of an entity line without its sign: `(name, binds)`. */
  datatype NamedTag = NamedTag(name: string, binds: seq<string>)

  /** The value `parse_entities` stores under an entity name: `(index, tags)`. */
  datatype EntityEntry = EntityEntry(index: nat, tags: seq<NamedTag>)

  /**
    The dictionary `parse_entities` returns: its entries, and its keys in
    insertion order, which is the order its `items()` enumerate them in.
   */
  datatype EntityTable = EntityTable(order: seq<string>, entries: map<string, EntityEntry>)

  function SignChar(sign: bool): char {
    if sign then '+' else '-'
  }

  predicate AllWords(ws: seq<string>) {
    forall k :: 0 <= k < |ws| ==> IsWord(ws[k])
  }

  predicate WellSpelledTag(t: ParsedTag) {
    IsTagName(t.name) && AllWords(t.binds)
  }

  predicate WellSpelledPatterns(ps: seq<ParsedPattern>) {
    forall k :: 0 <= k < |ps| ==> IsWord(ps[k].entity) && WellSpelledTag(ps[k].tag)
  }

  predicate WellSpelledRule(r: ParsedRule) {
    IsWord(r.name) && NoNewline(r.desc) && WellSpelledPatterns(r.pre) && WellSpelledPatterns(r.post)
  }

  /** The messages with which reading a tag can fail. */
  predicate TagError(msg: string) {
    msg in {"Expected sign", "Expected tag name", "Expected ',' between binds", "Expected bind"}
  }

  /** The messages with which reading a rule can fail. */
  predicate RuleError(msg: string) {
    TagError(msg) || msg in {"Expected '#'", "Expected rule name", "Expected rule description", "Expected '->'"}
  }

  /**
    `>[ \t]*(.*)[\r\n]` can end its match at `q` when the description
    starts at `start`: `s[q]` is a line break and no `\n` comes before it.
   */
  predicate DescEndsAt(s: string, start: nat, q: nat) {
    start <= q < |s| && IsLineBreak(s[q]) && forall k :: start <= k < q ==> s[k] != '\n'
  }

  /** Where the description of a `>` line at `p` starts: after the `>` and the blanks. */
  function DescStart(s: string, p: nat): nat
    requires p < |s|
  {
    RunEnd(s, p + 1, Blanks)
  }

  /** `>[ \t]*(.*)[\r\n]` matches at `p`. */
  ghost predicate DescFits(s: string, p: nat) {
    p < |s| && s[p] == '>' && exists q :: DescEndsAt(s, DescStart(s, p), q)
  }

  /** The distinct entity names of a block of patterns. */
  function EntityNames(pats: seq<ParsedPattern>): set<string> {
    set k | 0 <= k < |pats| :: pats[k].entity
  }

  /** The positive tags written for entity `n`, in text order, without their signs. */
  function PositiveTags(pats: seq<ParsedPattern>, n: string): seq<NamedTag>
    decreases |pats|
  {
    if pats == [] then []
    else
      var p := pats[|pats| - 1];
      PositiveTags(pats[..|pats| - 1], n)
        + (if p.entity == n && p.tag.sign then [NamedTag(p.tag.name, p.tag.binds)] else [])
  }

  /** `nt` is the tag, without its sign, of a positive pattern of `n`. */
  predicate WrittenPositive(pats: seq<ParsedPattern>, n: string, nt: NamedTag) {
    exists k :: 0 <= k < |pats| && pats[k].entity == n && pats[k].tag.sign && nt == NamedTag(pats[k].tag.name, pats[k].tag.binds)
  }

  /** The positive tags of `n` are the tags of the positive patterns of `n`, and no others. */
  lemma {:induction false} PositiveTagsFrom(pats: seq<ParsedPattern>, n: string)
    ensures forall j :: 0 <= j < |PositiveTags(pats, n)| ==> WrittenPositive(pats, n, PositiveTags(pats, n)[j])
    ensures forall k :: 0 <= k < |pats| && pats[k].entity == n && pats[k].tag.sign ==>
      NamedTag(pats[k].tag.name, pats[k].tag.binds) in PositiveTags(pats, n)
    decreases |pats|
  {
    if pats != [] {
      var init := pats[..|pats| - 1];
      PositiveTagsFrom(init, n);
      assert forall k :: 0 <= k < |init| ==> init[k] == pats[k];
      var before := PositiveTags(init, n);
      forall j | 0 <= j < |PositiveTags(pats, n)| ensures WrittenPositive(pats, n, PositiveTags(pats, n)[j]) {
        if j < |before| {
          assert PositiveTags(pats, n)[j] == before[j];
          var k :| 0 <= k < |init| && init[k].entity == n && init[k].tag.sign
                   && before[j] == NamedTag(init[k].tag.name, init[k].tag.binds);
          assert pats[k] == init[k];
        } else {
          assert pats[|pats| - 1].entity == n && pats[|pats| - 1].tag.sign;
        }
      }
    }
  }

  /**
    The keys of an entity table were inserted in the order of their
    indices `0, 1, ..`: the `i`-th key has index `i`, and every key is one of them.
   */
  predicate Numbered(t: EntityTable) {
    && (forall n :: n in t.entries ==> n in t.order)
    && (forall i :: 0 <= i < |t.order| ==> t.order[i] in t.entries && t.entries[t.order[i]].index == i)
  }

  /** Every name, tag name and bind of an entity table is well spelled. */
  predicate WellSpelledTable(t: EntityTable) {
    forall n :: n in t.entries ==>
      IsWord(n) && forall k :: 0 <= k < |t.entries[n].tags| ==>
        IsTagName(t.entries[n].tags[k].name) && AllWords(t.entries[n].tags[k].binds)
  }

  /** A numbered table names each index once: its keys are distinct and every index points back at its key. */
  lemma NumberedIndices(t: EntityTable)
    requires Numbered(t)
    ensures forall n :: n in t.entries ==> t.entries[n].index < |t.order| && t.order[t.entries[n].index] == n
    ensures forall i, j :: 0 <= i < j < |t.order| ==> t.order[i] != t.order[j]
  {
    forall n | n in t.entries ensures t.entries[n].index < |t.order| && t.order[t.entries[n].index] == n {
      var i :| 0 <= i < |t.order| && t.order[i] == n;
    }
  }

  lemma AllWordsSnoc(ws: seq<string>, w: string)
    requires AllWords(ws) && IsWord(w)
    ensures AllWords(ws + [w])
  {
    assert forall k :: 0 <= k < |ws| ==> (ws + [w])[k] == ws[k];
  }

  /** A `)` closes the stripped text read so far. */
  lemma Closing(text: string, p0: nat, q0: nat, read: string)
    requires p0 <= q0 < |text| && text[q0] == ')'
    requires Stripped(text, p0, q0) == read
    ensures Stripped(text, p0, q0 + 1) == read + ")"
  {
    StrippedSplit(text, p0, q0, q0 + 1);
  }

  /** A word followed by blanks strips to the word. */
  lemma WordThenBlanks(text: string, c: nat, d: nat, e: nat)
    requires c < d <= e <= |text|
    requires IsWord(text[c..d])
    requires forall k :: d <= k < e ==> IsBlank(text[k])
    ensures Stripped(text, c, e) == text[c..d]
  {
    assert forall k :: c <= k < d ==> text[k] == text[c..d][k - c];
    StrippedPlain(text, c, d);
    StrippedBlanks(text, d, e);
    StrippedSplit(text, c, d, e);
  }

  /** Adding a word to a bind list adds a comma (unless it is the first) and the word. */
  lemma JoinedSnoc(binds: seq<string>, w: string)
    ensures CommaJoined(binds + [w]) == CommaJoined(binds) + (if binds == [] then "" else ",") + w
  {
    if binds != [] {
      assert (binds + [w])[..|binds|] == binds;
    }
  }

  // ---------------------------------------------------------------- what the parser reads

  /** A value read from the text and the position just after it. */
  datatype Read<T> = Read(value: T, end: nat)

  /** A result and a cursor are what `spec` describes: its value and end, or its message. */
  predicate Gave<T(==)>(r: Result<T>, end: nat, spec: Result<Read<T>>) {
    match spec
    case Ok(rd) => r == Ok(rd.value) && end == rd.end
    case Fail(m) => r == Fail(m)
  }

  /** The messages with which reading binds can fail. */
  predicate BindError(msg: string) {
    msg == "Expected ',' between binds" || msg == "Expected bind"
  }

  /** What comes before a bind in a bind list: nothing for the first, a comma for the others. */
  function Sep(first: bool): string {
    if first then "" else ","
  }

  /** `w` is written in `text` at position `i`. */
  predicate At(text: string, i: nat, w: string) {
    i + |w| <= |text| && forall k {:trigger w[k]} :: 0 <= k < |w| ==> text[i + k] == w[k]
  }

  /** `At` is the slice comparison `lex_lit` makes. */
  lemma AtSlice(text: string, i: nat, j: nat, w: string)
    requires j == i + |w|
    ensures At(text, i, w) <==> j <= |text| && text[i..j] == w
  {
    if j <= |text| {
      var sl := text[i..j];
      assert forall k :: 0 <= k < |sl| ==> sl[k] == text[i + k];
    }
  }

  /**
    One round of the bind loop at `i`: a `,` unless this is the first
    bind, blanks, the bind's word and the blanks after it.
   */
  function BindRead(text: string, i: nat, first: bool): (r: Result<Read<string>>)
    requires i <= |text|
    ensures r.Ok? ==> i < r.value.end <= |text|
    ensures r.Fail? ==> BindError(r.msg)
  {
    if !first && !(i < |text| && text[i] == ',') then Fail("Expected ',' between binds")
    else
      var c := if first then i else RunEnd(text, i + 1, Blanks);
      if c < |text| && IsAlnum(text[c]) then
        var d := RunEnd(text, c + 1, WordChars);
        Ok(Read(text[c..d], RunEnd(text, d, Blanks)))
      else Fail("Expected bind")
  }

  /** The bind loop from `i` with `binds` read so far, up to the closing `)`. */
  function BindListRead(text: string, i: nat, binds: seq<string>): (r: Result<Read<seq<string>>>)
    requires i <= |text|
    ensures r.Ok? ==> i < r.value.end <= |text|
    ensures r.Fail? ==> BindError(r.msg)
    decreases |text| - i
  {
    if i < |text| && text[i] == ')' then Ok(Read(binds, i + 1))
    else
      match BindRead(text, i, binds == [])
      case Fail(m) => Fail(m)
      case Ok(b) => BindListRead(text, b.end, binds + [b.value])
  }

  /** `parse_binds` at `i`: no binds without a `(`, else the list up to its `)`. */
  function BindsRead(text: string, i: nat): (r: Result<Read<seq<string>>>)
    requires i <= |text|
    ensures !(i < |text| && text[i] == '(') ==> r == Ok(Read([], i))
    ensures r.Ok? ==> i <= r.value.end <= |text|
    ensures r.Fail? ==> BindError(r.msg)
  {
    if !(i < |text| && text[i] == '(') then Ok(Read([], i))
    else BindListRead(text, RunEnd(text, i + 1, Blanks), [])
  }

  /** Where `[A-Za-z0-9][A-Za-z0-9\-]+!?` ends when it starts at `j`: after the word run and one `!`. */
  function TagNameEnd(text: string, j: nat): (n: nat)
    requires j < |text|
    ensures j < n <= |text|
  {
    var e := RunEnd(text, j + 1, WordChars);
    if e < |text| && text[e] == '!' then e + 1 else e
  }

  /** `parse_tag` at `i`: a sign, a tag name and the binds after it. */
  function TagRead(text: string, i: nat): (r: Result<Read<ParsedTag>>)
    requires i <= |text|
    ensures r.Ok? ==> i < r.value.end <= |text|
    ensures r.Fail? ==> TagError(r.msg)
  {
    if !(i < |text| && IsSign(text[i])) then Fail("Expected sign")
    else if !(i + 2 < |text| && IsAlnum(text[i + 1]) && IsWordChar(text[i + 2])) then Fail("Expected tag name")
    else
      var n := TagNameEnd(text, i + 1);
      match BindsRead(text, n)
      case Fail(m) => Fail(m)
      case Ok(b) => Ok(Read(ParsedTag(text[i] == '+', text[i + 1..n], b.value), b.end))
  }

  /**
    The tags of a pattern line after its entity word, added to `acc`: the
    loop stops once `lex_line` finds a line break.
   */
  function LineTagsRead(text: string, i: nat, entity: string, acc: seq<ParsedPattern>): (r: Result<Read<seq<ParsedPattern>>>)
    requires i <= |text|
    ensures r.Ok? ==> i <= r.value.end <= |text|
    ensures r.Fail? ==> TagError(r.msg)
    decreases |text| - i
  {
    var e := RunEnd(text, i, Spaces);
    if RunEnd(text, i, Blanks) < e then Ok(Read(acc, e))
    else
      match TagRead(text, RunEnd(text, e, Blanks))
      case Fail(m) => Fail(m)
      case Ok(t) => LineTagsRead(text, t.end, entity, acc + [ParsedPattern(entity, t.value)])
  }

  /** `parse_patterns` at `i` with `acc` read so far: lines up to the first place no entity word starts. */
  function PatternsRead(text: string, i: nat, acc: seq<ParsedPattern>): (r: Result<Read<seq<ParsedPattern>>>)
    requires i <= |text|
    ensures r.Ok? ==> i <= r.value.end <= |text|
    ensures r.Fail? ==> TagError(r.msg)
    decreases |text| - i
  {
    var b := RunEnd(text, i, Blanks);
    if !(b < |text| && IsAlnum(text[b])) then Ok(Read(acc, b))
    else
      var e := RunEnd(text, b + 1, WordChars);
      match LineTagsRead(text, e, text[b..e], [])
      case Fail(m) => Fail(m)
      case Ok(l) => PatternsRead(text, l.end, acc + l.value)
  }

  /** The block ends where no word starts after the blanks. */
  lemma PatternsStop(text: string, i: nat, acc: seq<ParsedPattern>)
    requires i <= |text|
    requires var b := RunEnd(text, i, Blanks); !(b < |text| && IsAlnum(text[b]))
    ensures PatternsRead(text, i, acc) == Ok(Read(acc, RunEnd(text, i, Blanks)))
  {
  }

  /** A line of the block: the word from `b` to `e` and the tags after it. */
  lemma PatternsLine(text: string, i: nat, acc: seq<ParsedPattern>, b: nat, e: nat)
    requires i <= |text| && b == RunEnd(text, i, Blanks) && b < |text| && IsAlnum(text[b])
    requires e == RunEnd(text, b + 1, WordChars)
    ensures var l := LineTagsRead(text, e, text[b..e], []);
      PatternsRead(text, i, acc) == if l.Fail? then Fail(l.msg) else PatternsRead(text, l.value.end, acc + l.value.value)
  {
  }

  /** Where a backward search from `q` for a `\r` stops: just after the last `\r` of `text[s..q]`, or at `s`. */
  function CrAfter(text: string, s: nat, q: nat): (c: nat)
    requires s <= q <= |text|
    ensures s <= c <= q
    ensures c == s || text[c - 1] == '\r'
    decreases q
  {
    if q > s && text[q - 1] != '\r' then CrAfter(text, s, q - 1) else q
  }

  /** No `\r` comes after where the backward search stops. */
  lemma {:induction false} CrAfterLast(text: string, s: nat, q: nat)
    requires s <= q <= |text|
    ensures forall k :: CrAfter(text, s, q) <= k < q ==> text[k] != '\r'
    decreases q
  {
    if q > s && text[q - 1] != '\r' {
      CrAfterLast(text, s, q - 1);
    }
  }

  /**
    `>[ \t]*(.*)[\r\n]` at `i`: the group and the position after the match.
    `.*` takes everything up to the first `\n`; when no `\n` is left the
    match backs up to the last `\r`.
   */
  function DescRead(text: string, i: nat): (r: Option<Read<string>>)
    requires i <= |text|
    ensures r.Some? ==> i < r.value.end <= |text|
  {
    if !(i < |text| && text[i] == '>') then None
    else
      var s := RunEnd(text, i + 1, Blanks);
      var e := RunEnd(text, s, LineChars);
      if e < |text| then Some(Read(text[s..e], e + 1))
      else
        var c := CrAfter(text, s, |text|);
        if c == s then None else Some(Read(text[s..c - 1], c))
  }

  /** The `#` line of a rule at `i` up to its name: spaces, the `#`, blanks and the name's word. */
  function NameRead(text: string, i: nat): (r: Result<Read<string>>)
    requires i <= |text|
    ensures r.Ok? ==> i < r.value.end <= |text|
    ensures r.Fail? ==> RuleError(r.msg)
  {
    var h := RunEnd(text, i, Spaces);
    if !(h < |text| && text[h] == '#') then Fail("Expected '#'")
    else
      var w := RunEnd(text, h + 1, Blanks);
      if !(w < |text| && IsAlnum(text[w])) then Fail("Expected rule name")
      else
        var e := RunEnd(text, w + 1, WordChars);
        Ok(Read(text[w..e], e))
  }

  /** The head of a rule at `i`: the `#` line with the name, then the `>` description line. */
  function HeadRead(text: string, i: nat): (r: Result<Read<(string, string)>>)
    requires i <= |text|
    ensures r.Ok? ==> i < r.value.end <= |text|
    ensures r.Fail? ==> RuleError(r.msg)
  {
    match NameRead(text, i)
    case Fail(m) => Fail(m)
    case Ok(n) =>
      match DescRead(text, RunEnd(text, n.end, Spaces))
      case None => Fail("Expected rule description")
      case Some(d) => Ok(Read((n.value, d.value), RunEnd(text, d.end, Spaces)))
  }

  /** `parse_rule` at `i`: the head, the pre block, `->` and the post block. */
  function RuleRead(text: string, i: nat): (r: Result<Read<ParsedRule>>)
    requires i <= |text|
    ensures r.Ok? ==> i < r.value.end <= |text|
    ensures r.Fail? ==> RuleError(r.msg)
  {
    match HeadRead(text, i)
    case Fail(m) => Fail(m)
    case Ok(h) => RuleBodyRead(text, h.end, h.value)
  }

  /** The rest of a rule after its head, which ends at `j`: the pre block, `->` and the post block. */
  function RuleBodyRead(text: string, j: nat, head: (string, string)): (r: Result<Read<ParsedRule>>)
    requires j <= |text|
    ensures r.Ok? ==> j <= r.value.end <= |text|
    ensures r.Fail? ==> RuleError(r.msg)
  {
    match PatternsRead(text, j, [])
    case Fail(m) => Fail(m)
    case Ok(pre) => ArrowRead(text, RunEnd(text, pre.end, Spaces), head, pre.value)
  }

  /** The rest of a rule after its pre block, at `a`: `->` and the post block. */
  function ArrowRead(text: string, a: nat, head: (string, string), pre: seq<ParsedPattern>): (r: Result<Read<ParsedRule>>)
    requires a <= |text|
    ensures r.Ok? ==> a < r.value.end <= |text|
    ensures r.Fail? ==> RuleError(r.msg)
  {
    if !(a + 1 < |text| && text[a] == '-' && text[a + 1] == '>') then Fail("Expected '->'")
    else
      match PatternsRead(text, RunEnd(text, a + 2, Spaces), [])
      case Fail(m) => Fail(m)
      case Ok(post) => Ok(Read(ParsedRule(head.0, head.1, pre, post.value), RunEnd(text, post.end, Spaces)))
  }

  /** `parse_rules` from `i` with `acc` read so far: rules until the end of the text. */
  function RulesRead(text: string, i: nat, acc: seq<ParsedRule>): (r: Result<Read<seq<ParsedRule>>>)
    requires i <= |text|
    ensures r.Ok? ==> r.value.end == |text|
    ensures r.Fail? ==> RuleError(r.msg)
    decreases |text| - i
  {
    if i == |text| then Ok(Read(acc, i))
    else
      match RuleRead(text, i)
      case Fail(m) => Fail(m)
      case Ok(rd) => RulesRead(text, rd.end, acc + [rd.value])
  }

  // ---------------------------------------------------------------- what is read is well spelled

  /** The word run starting at an alphanumeric `text[c]` is a word. */
  lemma WordRun(text: string, c: nat)
    requires c < |text| && IsAlnum(text[c])
    ensures IsWord(text[c..RunEnd(text, c + 1, WordChars)])
  {
    var e := RunEnd(text, c + 1, WordChars);
    RunEndIn(text, c + 1, WordChars);
    assert forall k :: 0 <= k < e - c ==> text[c..e][k] == text[c + k];
  }

  /** The tag-name run starting at `j` is a tag name. */
  lemma TagNameRun(text: string, j: nat)
    requires j + 1 < |text| && IsAlnum(text[j]) && IsWordChar(text[j + 1])
    ensures IsTagName(text[j..TagNameEnd(text, j)])
  {
    var n := TagNameEnd(text, j);
    RunEndIn(text, j + 1, WordChars);
    assert forall k :: 0 <= k < n - j ==> text[j..n][k] == text[j + k];
  }

  /** A bind read at `i` is a word, and the text it took is its separator and the word, blanks aside. */
  lemma BindReadSound(text: string, i: nat, first: bool)
    requires i <= |text|
    ensures var r := BindRead(text, i, first);
      r.Ok? ==> IsWord(r.value.value) && Stripped(text, i, r.value.end) == Sep(first) + r.value.value
  {
    var r := BindRead(text, i, first);
    if r.Ok? {
      var c := if first then i else RunEnd(text, i + 1, Blanks);
      var d := RunEnd(text, c + 1, WordChars);
      if first {
        assert Stripped(text, i, c) == [];
      } else {
        RunEndIn(text, i + 1, Blanks);
        StrippedLead(text, i, c);
      }
      WordRun(text, c);
      RunEndIn(text, d, Blanks);
      WordThenBlanks(text, c, d, r.value.end);
      StrippedSplit(text, i, c, r.value.end);
    }
  }

  /** An opened bind list grows by the separator and the next bind. */
  lemma ParenSnoc(binds: seq<string>, w: string)
    ensures "(" + CommaJoined(binds + [w]) == "(" + CommaJoined(binds) + (Sep(binds == []) + w)
  {
    JoinedSnoc(binds, w);
  }

  /** One more bind read keeps the text taken the opened list of the binds, blanks aside. */
  lemma BindStep(text: string, p0: nat, i: nat, binds: seq<string>)
    requires p0 < i <= |text| && Stripped(text, p0, i) == "(" + CommaJoined(binds) && AllWords(binds)
    requires BindRead(text, i, binds == []).Ok?
    ensures var b := BindRead(text, i, binds == []).value;
      Stripped(text, p0, b.end) == "(" + CommaJoined(binds + [b.value]) && AllWords(binds + [b.value])
  {
    var b := BindRead(text, i, binds == []).value;
    BindReadSound(text, i, binds == []);
    StrippedSplit(text, p0, i, b.end);
    ParenSnoc(binds, b.value);
    AllWordsSnoc(binds, b.value);
  }

  /**
    The bind loop started after an opening `(` at `p0` takes the text of
    the comma-joined binds in parentheses, blanks aside.
   */
  lemma {:induction false} BindListReadSound(text: string, p0: nat, i: nat, binds: seq<string>)
    requires p0 < i <= |text| && Stripped(text, p0, i) == "(" + CommaJoined(binds) && AllWords(binds)
    ensures var r := BindListRead(text, i, binds);
      r.Ok? ==> && Stripped(text, p0, r.value.end) == "(" + CommaJoined(r.value.value) + ")"
                && AllWords(r.value.value)
    decreases |text| - i
  {
    if i < |text| && text[i] == ')' {
      Closing(text, p0, i, "(" + CommaJoined(binds));
    } else {
      var b := BindRead(text, i, binds == []);
      if b.Ok? {
        BindStep(text, p0, i, binds);
        BindListReadSound(text, p0, b.value.end, binds + [b.value.value]);
      }
    }
  }

  /** Binds read after a `(` are words, and the text taken is `(`, the comma-joined binds and `)`, blanks aside. */
  lemma BindsReadSound(text: string, i: nat)
    requires i <= |text|
    ensures var r := BindsRead(text, i);
      && (r.Ok? ==> AllWords(r.value.value))
      && (i < |text| && text[i] == '(' && r.Ok? ==>
            i < r.value.end && Stripped(text, i, r.value.end) == "(" + CommaJoined(r.value.value) + ")")
  {
    if i < |text| && text[i] == '(' {
      var p := RunEnd(text, i + 1, Blanks);
      RunEndIn(text, i + 1, Blanks);
      StrippedLead(text, i, p);
      BindListReadSound(text, i, p, []);
    }
  }

  /**
    A tag read at `i` is well spelled: its sign and name are the text
    after `i`, and whatever follows the name, blanks aside, is its bind list.
   */
  lemma TagReadSound(text: string, i: nat)
    requires i <= |text|
    ensures var r := TagRead(text, i);
      r.Ok? ==>
        var t := r.value.value;
        var n := i + 1 + |t.name|;
        && WellSpelledTag(t)
        && n <= r.value.end
        && text[i] == SignChar(t.sign)
        && text[i + 1..n] == t.name
        && (if n == r.value.end then t.binds == [] else Stripped(text, n, r.value.end) == "(" + CommaJoined(t.binds) + ")")
  {
    var r := TagRead(text, i);
    if r.Ok? {
      var n := TagNameEnd(text, i + 1);
      TagNameRun(text, i + 1);
      BindsReadSound(text, n);
    }
  }

  lemma SpelledJoin(ps: seq<ParsedPattern>, qs: seq<ParsedPattern>)
    requires WellSpelledPatterns(ps) && WellSpelledPatterns(qs)
    ensures WellSpelledPatterns(ps + qs)
  {
    assert forall k :: 0 <= k < |ps + qs| ==> (ps + qs)[k] == if k < |ps| then ps[k] else qs[k - |ps|];
  }

  lemma PrintableJoin(rs: seq<ParsedRule>, r: ParsedRule)
    requires PrintableRules(rs) && PrintableRule(r)
    ensures PrintableRules(rs + [r])
  {
    assert forall k :: 0 <= k < |rs| ==> (rs + [r])[k] == rs[k];
  }

  /** The patterns a line adds are well spelled when its entity word is. */
  lemma {:induction false} LineTagsReadSound(text: string, i: nat, entity: string, acc: seq<ParsedPattern>)
    requires i <= |text| && IsWord(entity) && WellSpelledPatterns(acc)
    ensures var r := LineTagsRead(text, i, entity, acc);
      r.Ok? ==> WellSpelledPatterns(r.value.value)
    decreases |text| - i
  {
    var e := RunEnd(text, i, Spaces);
    if RunEnd(text, i, Blanks) >= e {
      var j := RunEnd(text, e, Blanks);
      var t := TagRead(text, j);
      if t.Ok? {
        TagReadSound(text, j);
        var acc' := acc + [ParsedPattern(entity, t.value.value)];
        SpelledJoin(acc, [ParsedPattern(entity, t.value.value)]);
        LineTagsReadSound(text, t.value.end, entity, acc');
      }
    }
  }

  /**
    Patterns read are well spelled, and reading stops at the end of the
    text or at a character that is neither alphanumeric nor blank.
   */
  lemma {:induction false} PatternsReadSound(text: string, i: nat, acc: seq<ParsedPattern>)
    requires i <= |text| && WellSpelledPatterns(acc)
    ensures var r := PatternsRead(text, i, acc);
      r.Ok? ==> && WellSpelledPatterns(r.value.value)
                && (r.value.end == |text| || (!IsAlnum(text[r.value.end]) && !IsBlank(text[r.value.end])))
    decreases |text| - i, 1
  {
    var b := RunEnd(text, i, Blanks);
    if b < |text| && IsAlnum(text[b]) {
      PatternsLineSound(text, i, acc, b, RunEnd(text, b + 1, WordChars));
    }
  }

  /** The inductive step of `PatternsReadSound`: a line whose entity word runs from `b` to `e`. */
  lemma {:induction false} PatternsLineSound(text: string, i: nat, acc: seq<ParsedPattern>, b: nat, e: nat)
    requires i <= |text| && WellSpelledPatterns(acc)
    requires b == RunEnd(text, i, Blanks) && b < |text| && IsAlnum(text[b]) && e == RunEnd(text, b + 1, WordChars)
    ensures var r := PatternsRead(text, i, acc);
      r.Ok? ==> && WellSpelledPatterns(r.value.value)
                && (r.value.end == |text| || (!IsAlnum(text[r.value.end]) && !IsBlank(text[r.value.end])))
    decreases |text| - i, 0
  {
    PatternsLine(text, i, acc, b, e);
    WordRun(text, b);
    var l := LineTagsRead(text, e, text[b..e], []);
    if l.Ok? {
      LineTagsReadSound(text, e, text[b..e], []);
      SpelledJoin(acc, l.value.value);
      PatternsReadSound(text, l.value.end, acc + l.value.value);
    }
  }

  /**
    `DescRead` is the match of `>[ \t]*(.*)[\r\n]`: it succeeds exactly when
    a line break can end the match, and it ends at the last such line break
    that has no `\n` before it.  The description has no `\n` and does not
    start with a blank.
   */
  lemma DescReadMatches(text: string, i: nat)
    requires i <= |text|
    ensures DescRead(text, i).Some? <==> DescFits(text, i)
    ensures var d := DescRead(text, i);
      d.Some? ==>
        var s := DescStart(text, i);
        && s < d.value.end
        && DescEndsAt(text, s, d.value.end - 1)
        && d.value.value == text[s..d.value.end - 1]
        && PlainDesc(d.value.value)
        && forall q :: d.value.end - 1 < q ==> !DescEndsAt(text, s, q)
  {
    if i < |text| && text[i] == '>' {
      var s := RunEnd(text, i + 1, Blanks);
      var e := RunEnd(text, s, LineChars);
      RunEndIn(text, i + 1, Blanks);
      RunEndIn(text, s, LineChars);
      assert s == DescStart(text, i);
      if e < |text| {
        assert DescEndsAt(text, s, e);
        assert DescFits(text, i);
      } else {
        var c := CrAfter(text, s, |text|);
        CrAfterLast(text, s, |text|);
        if c == s {
          assert forall q :: !DescEndsAt(text, s, q);
        } else {
          assert DescEndsAt(text, s, c - 1);
        }
      }
    }
  }

  /** A description read is plain. */
  lemma DescReadPlain(text: string, i: nat)
    requires i <= |text|
    ensures var d := DescRead(text, i); d.Some? ==> PlainDesc(d.value.value)
  {
    DescReadMatches(text, i);
  }

  /** A rule name read at `i` is a word, and a `#` comes first after the spaces. */
  lemma NameReadSound(text: string, i: nat)
    requires i <= |text|
    ensures var r := NameRead(text, i);
      r.Ok? ==> IsWord(r.value.value) && var h := RunEnd(text, i, Spaces); h < |text| && text[h] == '#'
  {
    var h := RunEnd(text, i, Spaces);
    if h < |text| && text[h] == '#' {
      var w := RunEnd(text, h + 1, Blanks);
      if w < |text| && IsAlnum(text[w]) {
        WordRun(text, w);
      }
    }
  }

  /** A head read at `i` has a word for a name and a plain description, and starts with `#` after the spaces. */
  lemma HeadReadSound(text: string, i: nat)
    requires i <= |text|
    ensures var r := HeadRead(text, i);
      r.Ok? ==> && IsWord(r.value.value.0) && PlainDesc(r.value.value.1)
                && var h := RunEnd(text, i, Spaces); h < |text| && text[h] == '#'
  {
    NameReadSound(text, i);
    var n := NameRead(text, i);
    if n.Ok? {
      DescReadPlain(text, RunEnd(text, n.value.end, Spaces));
    }
  }

  /** A rule read at `i` can be printed back: its name, description and patterns are well spelled. */
  lemma RuleReadSound(text: string, i: nat)
    requires i <= |text|
    ensures var r := RuleRead(text, i);
      r.Ok? ==> PrintableRule(r.value.value) && var h := RunEnd(text, i, Spaces); h < |text| && text[h] == '#'
  {
    var r := RuleRead(text, i);
    if r.Ok? {
      var hd := HeadRead(text, i);
      HeadReadSound(text, i);
      PatternsReadSound(text, hd.value.end, []);
      var pre := PatternsRead(text, hd.value.end, []);
      var a := RunEnd(text, pre.value.end, Spaces);
      PatternsReadSound(text, RunEnd(text, a + 2, Spaces), []);
    }
  }

  /** Rules read up to the end of the text are printable when those read before them are. */
  lemma {:induction false} RulesReadSound(text: string, i: nat, acc: seq<ParsedRule>)
    requires i <= |text| && PrintableRules(acc)
    ensures var r := RulesRead(text, i, acc); r.Ok? ==> PrintableRules(r.value.value)
    decreases |text| - i
  {
    if i < |text| {
      var rd := RuleRead(text, i);
      if rd.Ok? {
        RuleReadSound(text, i);
        var acc' := acc + [rd.value.value];
        PrintableJoin(acc, rd.value.value);
        RulesReadSound(text, rd.value.end, acc');
      }
    }
  }

  // ---------------------------------------------------------------- canonical spelling

  /** The binds of a tag as written after its name: `(a,b)`, or nothing when there are none. */
  function BindsText(binds: seq<string>): string {
    if binds == [] then "" else "(" + CommaJoined(binds) + ")"
  }

  /** A tag spelled without blanks: `+hold(thing)`. */
  function TagText(t: ParsedTag): string {
    [SignChar(t.sign)] + t.name + BindsText(t.binds)
  }

  /** A pattern on a line of its own: `dwarf +hold(thing)` and a newline. */
  function PatternLine(p: ParsedPattern): string {
    p.entity + " " + TagText(p.tag) + "\n"
  }

  /** A block of patterns, one per line. */
  function PatternsText(ps: seq<ParsedPattern>): string
    decreases |ps|
  {
    if ps == [] then "" else PatternLine(ps[0]) + PatternsText(ps[1..])
  }

  /** The `>` line of a rule. */
  function DescLine(desc: string): string {
    "> " + desc + "\n"
  }

  /** The `#` line and the `>` line of a rule. */
  function HeadText(name: string, desc: string): string {
    "# " + name + "\n" + DescLine(desc)
  }

  /** A rule spelled as the parser reads it: head, pre block, `->`, post block. */
  function RuleText(r: ParsedRule): string {
    HeadText(r.name, r.desc) + PatternsText(r.pre) + "->\n" + PatternsText(r.post)
  }

  function RulesText(rs: seq<ParsedRule>): string
    decreases |rs|
  {
    if rs == [] then "" else RuleText(rs[0]) + RulesText(rs[1..])
  }

  /** A description the `>` line gives back unchanged: no newline and no leading blank. */
  predicate PlainDesc(d: string) {
    NoNewline(d) && (d == [] || !IsBlank(d[0]))
  }

  /** A rule record that some text reads as: well spelled, with a plain description. */
  predicate PrintableRule(r: ParsedRule) {
    WellSpelledRule(r) && PlainDesc(r.desc)
  }

  predicate PrintableRules(rs: seq<ParsedRule>) {
    forall k :: 0 <= k < |rs| ==> PrintableRule(rs[k])
  }

  /** Position `i` starts no run of spaces, tabs or line breaks. */
  predicate NoSpaceAt(text: string, i: nat) {
    i >= |text| || !IsSpace(text[i])
  }

  /** Position `i` can end a block of patterns: the end, or a character that starts neither a word nor a space. */
  predicate BlockEndAt(text: string, i: nat) {
    i >= |text| || (!IsSpace(text[i]) && !IsAlnum(text[i]))
  }

  lemma AtSplit(text: string, i: nat, a: string, b: string)
    requires At(text, i, a + b)
    ensures At(text, i, a) && At(text, i + |a|, b)
  {
    assert forall k :: 0 <= k < |a| ==> (a + b)[k] == a[k];
    assert forall k :: 0 <= k < |b| ==> (a + b)[|a| + k] == b[k];
  }

  lemma AtChar(text: string, i: nat, w: string, k: nat)
    requires At(text, i, w) && k < |w|
    ensures text[i + k] == w[k]
  {
  }

  /** A one-character literal is written at `i` exactly when that character is `text[i]`. */
  lemma AtOne(text: string, i: nat, c: char)
    ensures At(text, i, [c]) <==> i < |text| && text[i] == c
  {
    if At(text, i, [c]) {
      AtChar(text, i, [c], 0);
    }
  }

  /** A two-character literal is written at `i` exactly when those are the characters at `i` and `i + 1`. */
  lemma AtTwo(text: string, i: nat, c: char, d: char)
    ensures At(text, i, [c, d]) <==> i + 1 < |text| && text[i] == c && text[i + 1] == d
  {
    if At(text, i, [c, d]) {
      AtChar(text, i, [c, d], 0);
      AtChar(text, i, [c, d], 1);
    }
  }

  lemma AtPrefix(text: string, i: nat, w: string, n: nat)
    requires At(text, i, w) && n <= |w|
    ensures At(text, i, w[..n])
  {
  }

  /** The first `k + 1` binds and the comma after them begin the comma-joined list. */
  lemma {:induction false} JoinedPrefix(bs: seq<string>, k: nat)
    requires k + 1 < |bs|
    ensures |CommaJoined(bs[..k + 1]) + ","| <= |CommaJoined(bs)|
    ensures CommaJoined(bs)[..|CommaJoined(bs[..k + 1]) + ","|] == CommaJoined(bs[..k + 1]) + ","
    decreases |bs|
  {
    var init := bs[..|bs| - 1];
    if k + 1 < |init| {
      JoinedPrefix(init, k);
      assert init[..k + 1] == bs[..k + 1];
    } else {
      assert init == bs[..k + 1];
    }
  }


  /** A word is written at `i` and ends where no word character follows. */
  lemma WordAt(text: string, i: nat, j: nat, w: string)
    requires At(text, i, w) && IsWord(w) && j == i + |w|
    requires j == |text| || !IsWordChar(text[j])
    ensures IsAlnum(text[i]) && RunEnd(text, i + 1, WordChars) == j
  {
    AtChar(text, i, w, 0);
    forall k | i + 1 <= k < j ensures IsWordChar(text[k]) {
      AtChar(text, i, w, k - i);
    }
    RunEndSkip(text, i + 1, j, WordChars);
  }

  /** A tag name is written at `i` and is followed by neither a word character nor `!`. */
  lemma TagNameAt(text: string, i: nat, j: nat, w: string)
    requires At(text, i, w) && IsTagName(w) && j == i + |w| && j < |text|
    requires !IsWordChar(text[j]) && text[j] != '!'
    ensures i + 1 < |text| && IsAlnum(text[i]) && IsWordChar(text[i + 1])
    ensures TagNameEnd(text, i) == j
  {
    AtChar(text, i, w, 1);
    if w[|w| - 1] == '!' {
      var v := w[..|w| - 1];
      AtPrefix(text, i, w, |w| - 1);
      AtChar(text, i, w, |w| - 1);
      WordAt(text, i, j - 1, v);
    } else {
      WordAt(text, i, j, w);
    }
  }

  /** The first character of a non-empty comma-joined list is that of its first word. */
  lemma JoinedHead(bs: seq<string>)
    requires bs != [] && |bs[0]| > 0
    ensures |CommaJoined(bs)| > 0 && CommaJoined(bs)[0] == bs[0][0]
  {
    if |bs| > 1 {
      JoinedPrefix(bs, 0);
      assert CommaJoined(bs)[0] == (CommaJoined(bs[..1]) + ",")[0];
    }
  }

  /** The first character of a non-empty block of patterns is that of its first entity. */
  lemma PatternsHead(ps: seq<ParsedPattern>)
    requires ps != [] && |ps[0].entity| > 0
    ensures |PatternsText(ps)| > 0 && PatternsText(ps)[0] == ps[0].entity[0]
  {
    assert PatternsText(ps) == PatternLine(ps[0]) + PatternsText(ps[1..]);
  }

  // ---------------------------------------------------------------- reading the canonical spelling back

  /** A bind, with its separator, written at `i` up to `j` and followed by `,` or `)`. */
  predicate BindAt(text: string, i: nat, j: nat, first: bool, w: string) {
    && IsWord(w)
    && At(text, i, Sep(first) + w)
    && j == i + |Sep(first) + w|
    && j < |text|
    && (text[j] == ',' || text[j] == ')')
  }

  /** A bind written at `i` is read back, and reading stops right after it, at `j`. */
  lemma BindReadBack(text: string, i: nat, j: nat, first: bool, w: string)
    requires BindAt(text, i, j, first, w)
    ensures BindRead(text, i, first) == Ok(Read(w, j))
  {
    if first {
      assert Sep(first) + w == w;
      WordAt(text, i, j, w);
      AtSlice(text, i, j, w);
      assert RunEnd(text, j, Blanks) == j;
      BindReadFrom(text, i, first, i, j, w);
    } else {
      AtParts(text, i, i + 1, "," + w, ",", w);
      WordAt(text, i + 1, j, w);
      AtSlice(text, i + 1, j, w);
      AtChar(text, i, ",", 0);
      AtChar(text, i + 1, w, 0);
      assert RunEnd(text, i + 1, Blanks) == i + 1;
      assert RunEnd(text, j, Blanks) == j;
      BindReadFrom(text, i, first, i + 1, j, w);
    }
  }

  /** `BindRead` on the pieces it looks at: the separator, the word from `c` to `d` and no blank after it. */
  lemma BindReadFrom(text: string, i: nat, first: bool, c: nat, d: nat, w: string)
    requires i <= |text|
    requires first ==> c == i
    requires !first ==> i < |text| && text[i] == ',' && RunEnd(text, i + 1, Blanks) == c
    requires c < |text| && IsAlnum(text[c]) && RunEnd(text, c + 1, WordChars) == d
    requires text[c..d] == w && RunEnd(text, d, Blanks) == d
    ensures BindRead(text, i, first) == Ok(Read(w, d))
  {
  }

  /** A non-empty bind list written at `i` in its canonical spelling `(a,b)`. */
  predicate ListAt(text: string, i: nat, bs: seq<string>) {
    bs != [] && AllWords(bs) && At(text, i, BindsText(bs))
  }

  /** The binds of a list, comma-joined from `p` up to the `)` at `z`. */
  predicate ListIn(text: string, p: nat, z: nat, bs: seq<string>) {
    && bs != [] && AllWords(bs)
    && At(text, p, CommaJoined(bs)) && z == p + |CommaJoined(bs)|
    && z < |text| && text[z] == ')'
  }

  /** The first `k + 1` binds of a list written at `p`, ending at `e`, are followed by `,` or, after the last, `)`. */
  lemma ListFollow(text: string, p: nat, z: nat, bs: seq<string>, k: nat, e: nat)
    requires ListIn(text, p, z, bs) && k < |bs| && e == p + |CommaJoined(bs[..k + 1])|
    ensures At(text, p, CommaJoined(bs[..k + 1])) && e < |text| && (text[e] == ',' || text[e] == ')')
  {
    var pre := CommaJoined(bs[..k + 1]);
    if k + 1 < |bs| {
      JoinedPrefix(bs, k);
      AtPrefix(text, p, CommaJoined(bs), |pre| + 1);
      assert CommaJoined(bs)[..|pre| + 1] == pre + ",";
      AtParts(text, p, e, pre + ",", pre, ",");
      AtChar(text, e, ",", 0);
    } else {
      assert bs[..k + 1] == bs;
      assert e == z;
    }
  }

  /** After the first `|binds|` binds of a list, at `q`, the next bind is written up to `q2`, and no `)` comes first. */
  lemma ListNext(text: string, p: nat, z: nat, bs: seq<string>, binds: seq<string>, first: bool, q: nat, q2: nat)
    requires ListIn(text, p, z, bs) && |binds| < |bs| && binds == bs[..|binds|] && (first <==> binds == [])
    requires q == p + |CommaJoined(binds)| && q2 == p + |CommaJoined(bs[..|binds| + 1])|
    ensures !(q < |text| && text[q] == ')')
    ensures BindAt(text, q, q2, first, bs[|binds|])
    ensures binds + [bs[|binds|]] == bs[..|binds| + 1]
  {
    var k := |binds|;
    var w := bs[k];
    assert binds + [w] == bs[..k + 1];
    var pre := CommaJoined(bs[..k + 1]);
    assert pre == CommaJoined(binds) + (Sep(first) + w) by {
      JoinedSnoc(binds, w);
    }
    ListFollow(text, p, z, bs, k, q2);
    AtParts(text, p, q, pre, CommaJoined(binds), Sep(first) + w);
    AtChar(text, q, Sep(first) + w, 0);
    assert IsWord(w);
  }

  /** The bind loop at `q`, after the first `k` binds of a list, reads the whole list and its `)` at `z`. */
  lemma {:induction false} BindListReadBack(text: string, p: nat, z: nat, bs: seq<string>, k: nat, q: nat)
    requires ListIn(text, p, z, bs) && k <= |bs| && q == p + |CommaJoined(bs[..k])|
    ensures q <= |text|
    ensures BindListRead(text, q, bs[..k]) == Ok(Read(bs, z + 1))
    decreases |bs| - k
  {
    if k == |bs| {
      assert bs[..k] == bs;
      assert q == z;
      BindListClose(text, z, bs);
    } else {
      var q2 := p + |CommaJoined(bs[..k + 1])|;
      ListAdvance(text, p, z, bs, k, q, q2);
      BindListReadBack(text, p, z, bs, k + 1, q2);
    }
  }

  /** The bind loop at `q`, after the first `k` binds of a list, goes on at `q2`, after the first `k + 1`. */
  lemma ListAdvance(text: string, p: nat, z: nat, bs: seq<string>, k: nat, q: nat, q2: nat)
    requires ListIn(text, p, z, bs) && k < |bs|
    requires q == p + |CommaJoined(bs[..k])| && q2 == p + |CommaJoined(bs[..k + 1])|
    ensures q <= |text| && q2 <= |text|
    ensures BindListRead(text, q, bs[..k]) == BindListRead(text, q2, bs[..k + 1])
  {
    ListNext(text, p, z, bs, bs[..k], bs[..k] == [], q, q2);
    BindListStep(text, q, q2, bs[..k], bs[k]);
  }

  /** A bind written at `i` up to `j`, with no `)` before it, is the next one the bind loop reads. */
  lemma BindListStep(text: string, i: nat, j: nat, binds: seq<string>, w: string)
    requires BindAt(text, i, j, binds == [], w) && !(i < |text| && text[i] == ')')
    ensures BindListRead(text, i, binds) == BindListRead(text, j, binds + [w])
  {
    BindReadBack(text, i, j, binds == [], w);
    BindListNext(text, i, binds, w, j);
  }

  /** The bind loop stops after a `)`. */
  lemma BindListClose(text: string, i: nat, binds: seq<string>)
    requires i < |text| && text[i] == ')'
    ensures BindListRead(text, i, binds) == Ok(Read(binds, i + 1))
  {
  }

  /** Without a `)`, the bind loop reads one more bind and goes on after it. */
  lemma BindListNext(text: string, i: nat, binds: seq<string>, w: string, end: nat)
    requires i <= |text| && !(i < |text| && text[i] == ')')
    requires BindRead(text, i, binds == []) == Ok(Read(w, end))
    ensures BindListRead(text, i, binds) == BindListRead(text, end, binds + [w])
  {
  }

  /** A bind list written at `i` is read back whole, up to `e`. */
  lemma BindsReadBack(text: string, i: nat, e: nat, bs: seq<string>)
    requires ListAt(text, i, bs) && e == i + |BindsText(bs)|
    ensures BindsRead(text, i) == Ok(Read(bs, e))
  {
    var p := i + 1;
    var z := p + |CommaJoined(bs)|;
    assert IsWord(bs[0]);
    JoinedHead(bs);
    AtParts(text, i, z, BindsText(bs), "(" + CommaJoined(bs), ")");
    AtParts(text, i, p, "(" + CommaJoined(bs), "(", CommaJoined(bs));
    AtChar(text, i, "(", 0);
    AtChar(text, z, ")", 0);
    AtChar(text, p, CommaJoined(bs), 0);
    assert RunEnd(text, p, Blanks) == p;
    assert bs[..0] == [];
    BindListReadBack(text, p, z, bs, 0, p);
    BindsOpen(text, i, p, BindListRead(text, p, []));
  }

  /** After a `(` the binds are what the bind loop reads after the blanks. */
  lemma BindsOpen(text: string, i: nat, p: nat, r: Result<Read<seq<string>>>)
    requires i < |text| && text[i] == '(' && RunEnd(text, i + 1, Blanks) == p
    requires BindListRead(text, p, []) == r
    ensures BindsRead(text, i) == r
  {
  }

  /** A tag written at `i` in its canonical spelling, at the end of its line. */
  predicate TagAt(text: string, i: nat, t: ParsedTag) {
    && WellSpelledTag(t)
    && At(text, i, TagText(t))
    && i + |TagText(t)| < |text|
    && text[i + |TagText(t)|] == '\n'
  }

  /** The pieces of a tag written at `i`, as `TagRead` looks at them. */
  lemma TagParts(text: string, i: nat, t: ParsedTag)
    requires TagAt(text, i, t)
    ensures i + 2 < |text| && IsSign(text[i]) && (text[i] == '+') == t.sign
    ensures IsAlnum(text[i + 1]) && IsWordChar(text[i + 2])
    ensures TagNameEnd(text, i + 1) == i + 1 + |t.name| && text[i + 1..i + 1 + |t.name|] == t.name
    ensures At(text, i + 1 + |t.name|, BindsText(t.binds)) && i + |TagText(t)| == i + 1 + |t.name| + |BindsText(t.binds)|
    ensures t.binds == [] ==> i + 1 + |t.name| < |text| && text[i + 1 + |t.name|] == '\n'
  {
    var n := i + 1 + |t.name|;
    AtSplit(text, i, [SignChar(t.sign)] + t.name, BindsText(t.binds));
    AtSplit(text, i, [SignChar(t.sign)], t.name);
    AtChar(text, i, [SignChar(t.sign)], 0);
    if t.binds != [] {
      AtChar(text, n, BindsText(t.binds), 0);
    }
    TagNameAt(text, i + 1, n, t.name);
    AtSlice(text, i + 1, n, t.name);
  }

  /** What follows a tag name: its bind list, or the end of the line when it has none. */
  lemma TagBinds(text: string, n: nat, bs: seq<string>, end: nat)
    requires AllWords(bs) && At(text, n, BindsText(bs)) && end == n + |BindsText(bs)|
    requires bs == [] ==> n < |text| && text[n] == '\n'
    ensures BindsRead(text, n) == Ok(Read(bs, end))
  {
    if bs != [] {
      BindsReadBack(text, n, end, bs);
    }
  }

  /** A tag written at `i` is read back, and reading stops at the end of its spelling. */
  lemma TagReadBack(text: string, i: nat, e: nat, t: ParsedTag)
    requires TagAt(text, i, t) && e == i + |TagText(t)|
    ensures TagRead(text, i) == Ok(Read(t, e))
  {
    var n := i + 1 + |t.name|;
    TagParts(text, i, t);
    TagBinds(text, n, t.binds, e);
    TagReadFrom(text, i, t, e);
  }

  lemma TagReadFrom(text: string, i: nat, t: ParsedTag, end: nat)
    requires i + 2 < |text| && IsSign(text[i]) && (text[i] == '+') == t.sign
    requires IsAlnum(text[i + 1]) && IsWordChar(text[i + 2])
    requires TagNameEnd(text, i + 1) == i + 1 + |t.name| && text[i + 1..i + 1 + |t.name|] == t.name
    requires BindsRead(text, i + 1 + |t.name|) == Ok(Read(t.binds, end))
    ensures TagRead(text, i) == Ok(Read(t, end))
  {
  }

  /** The tag of a pattern line written at `i`: a blank, the tag and the end of the line, up to `j`, and no space after it. */
  predicate LineAt(text: string, i: nat, j: nat, t: ParsedTag) {
    WellSpelledTag(t) && At(text, i, " " + TagText(t) + "\n") && j == i + |" " + TagText(t) + "\n"| && NoSpaceAt(text, j)
  }

  /** The rest of a pattern line written at `i` is read as its one tag, up to `j`. */
  lemma LineTagsReadBack(text: string, i: nat, j: nat, entity: string, acc: seq<ParsedPattern>, t: ParsedTag)
    requires LineAt(text, i, j, t)
    ensures LineTagsRead(text, i, entity, acc) == Ok(Read(acc + [ParsedPattern(entity, t)], j))
  {
    var m := i + 1 + |TagText(t)|;
    AtSplit(text, i, " " + TagText(t), "\n");
    AtSplit(text, i, " ", TagText(t));
    AtChar(text, i, " ", 0);
    AtChar(text, m, "\n", 0);
    AtChar(text, i + 1, TagText(t), 0);
    assert RunEnd(text, i + 1, Spaces) == i + 1 && RunEnd(text, i + 1, Blanks) == i + 1;
    assert RunEnd(text, i, Spaces) == i + 1 && RunEnd(text, i, Blanks) == i + 1;
    TagReadBack(text, i + 1, m, t);
    LineTagsNext(text, i, entity, acc, i + 1, Read(t, m));
    assert RunEnd(text, m + 1, Spaces) == m + 1;
    assert RunEnd(text, m, Blanks) == m && RunEnd(text, m, Spaces) == m + 1;
    LineTagsStop(text, m, entity, acc + [ParsedPattern(entity, t)]);
  }

  /** A line break after the blanks ends the tags of a line, and the run of spaces after it is taken. */
  lemma LineTagsStop(text: string, i: nat, entity: string, acc: seq<ParsedPattern>)
    requires i <= |text| && RunEnd(text, i, Blanks) < RunEnd(text, i, Spaces)
    ensures LineTagsRead(text, i, entity, acc) == Ok(Read(acc, RunEnd(text, i, Spaces)))
  {
  }

  /** Without a line break, the tag read at `j`, after the blanks, joins the line and reading goes on after it. */
  lemma LineTagsNext(text: string, i: nat, entity: string, acc: seq<ParsedPattern>, j: nat, t: Read<ParsedTag>)
    requires i <= |text| && RunEnd(text, i, Blanks) >= RunEnd(text, i, Spaces)
    requires j == RunEnd(text, RunEnd(text, i, Spaces), Blanks) && TagRead(text, j) == Ok(t)
    ensures LineTagsRead(text, i, entity, acc) == LineTagsRead(text, t.end, entity, acc + [ParsedPattern(entity, t.value)])
  {
  }

  /** A block of patterns written at `i` in its canonical spelling, ending at `e` where a block can end. */
  predicate PatsAt(text: string, i: nat, e: nat, ps: seq<ParsedPattern>) {
    WellSpelledPatterns(ps) && At(text, i, PatternsText(ps)) && e == i + |PatternsText(ps)| && BlockEndAt(text, e)
  }

  /** A block written at `j` starts with no space. */
  lemma BlockStart(text: string, j: nat, e: nat, ps: seq<ParsedPattern>)
    requires PatsAt(text, j, e, ps)
    ensures NoSpaceAt(text, j)
  {
    if ps != [] {
      PatternsHead(ps);
      AtChar(text, j, PatternsText(ps), 0);
    }
  }

  /** A pattern line written at `q` up to `j`, followed by no space, is read as that one pattern. */
  lemma PatternLineBack(text: string, q: nat, j: nat, p: ParsedPattern, acc: seq<ParsedPattern>)
    requires IsWord(p.entity) && WellSpelledTag(p.tag)
    requires At(text, q, PatternLine(p)) && j == q + |PatternLine(p)| && NoSpaceAt(text, j)
    ensures j <= |text|
    ensures PatternsRead(text, q, acc) == PatternsRead(text, j, acc + [p])
  {
    var e := q + |p.entity|;
    var rest := " " + TagText(p.tag) + "\n";
    AtParts(text, q, e, PatternLine(p), p.entity, rest);
    AtChar(text, e, rest, 0);
    WordAt(text, q, e, p.entity);
    AtSlice(text, q, e, p.entity);
    assert RunEnd(text, q, Blanks) == q;
    PatternsLine(text, q, acc, q, e);
    LineTagsReadBack(text, e, j, p.entity, [], p.tag);
    assert [] + [ParsedPattern(p.entity, p.tag)] == [p];
  }

  /** A block written at `i` is its first line, up to `j`, followed by the rest of the block. */
  lemma PatsFirst(text: string, i: nat, j: nat, e: nat, ps: seq<ParsedPattern>)
    requires PatsAt(text, i, e, ps) && ps != [] && j == i + |PatternLine(ps[0])|
    ensures IsWord(ps[0].entity) && WellSpelledTag(ps[0].tag) && At(text, i, PatternLine(ps[0]))
    ensures PatsAt(text, j, e, ps[1..])
  {
    PatternsTail(ps);
    AtParts(text, i, j, PatternsText(ps), PatternLine(ps[0]), PatternsText(ps[1..]));
  }

  /** The patterns after the first of a well-spelled block are well spelled. */
  lemma PatternsTail(ps: seq<ParsedPattern>)
    requires WellSpelledPatterns(ps) && ps != []
    ensures WellSpelledPatterns(ps[1..])
    ensures PatternsText(ps) == PatternLine(ps[0]) + PatternsText(ps[1..])
  {
    assert forall k :: 0 <= k < |ps[1..]| ==> ps[1..][k] == ps[k + 1];
  }

  /** The first line of a block written at `i` is read, and reading goes on at `j`, the rest of the block. */
  lemma PatsStep(text: string, i: nat, j: nat, e: nat, ps: seq<ParsedPattern>, acc: seq<ParsedPattern>)
    requires PatsAt(text, i, e, ps) && ps != [] && j == i + |PatternLine(ps[0])|
    ensures PatsAt(text, j, e, ps[1..])
    ensures PatternsRead(text, i, acc) == PatternsRead(text, j, acc + [ps[0]])
  {
    PatsFirst(text, i, j, e, ps);
    BlockStart(text, j, e, ps[1..]);
    PatternLineBack(text, i, j, ps[0], acc);
  }

  /** Reading a block written at `i`, after `acc`, gives `acc` and the whole block, and stops at the block's end `e`. */
  lemma {:induction false} PatternsReadBack(text: string, i: nat, e: nat, ps: seq<ParsedPattern>, acc: seq<ParsedPattern>)
    requires PatsAt(text, i, e, ps)
    ensures PatternsRead(text, i, acc) == Ok(Read(acc + ps, e))
    decreases |ps|, 2
  {
    if ps == [] {
      PatsEnd(text, i, e, ps, acc);
    } else {
      PatsReadOn(text, i, e, ps, acc);
    }
  }

  /** Where no line is left, reading stops at once. */
  lemma PatsEnd(text: string, i: nat, e: nat, ps: seq<ParsedPattern>, acc: seq<ParsedPattern>)
    requires PatsAt(text, i, e, ps) && ps == []
    ensures PatternsRead(text, i, acc) == Ok(Read(acc + ps, e))
  {
    assert acc + ps == acc;
    assert RunEnd(text, i, Blanks) == i;
    PatternsStop(text, i, acc);
  }

  /** The inductive step of `PatternsReadBack`: the first line, then the rest of the block. */
  lemma {:induction false} PatsReadOn(text: string, i: nat, e: nat, ps: seq<ParsedPattern>, acc: seq<ParsedPattern>)
    requires PatsAt(text, i, e, ps) && ps != []
    ensures PatternsRead(text, i, acc) == Ok(Read(acc + ps, e))
    decreases |ps|, 1
  {
    var j := i + |PatternLine(ps[0])|;
    PatsStep(text, i, j, e, ps, acc);
    PatsRest(text, j, e, ps, acc);
  }

  /** After the first line of a block, the rest of the block is read from `j`, and with the first line it is the whole block. */
  lemma {:induction false} PatsRest(text: string, j: nat, e: nat, ps: seq<ParsedPattern>, acc: seq<ParsedPattern>)
    requires ps != [] && PatsAt(text, j, e, ps[1..])
    ensures PatternsRead(text, j, acc + [ps[0]]) == Ok(Read(acc + ps, e))
    decreases |ps|, 0
  {
    PatternsReadBack(text, j, e, ps[1..], acc + [ps[0]]);
    JoinFirst(ps, acc);
  }

  /** A block written at `i` up to `e` is read back whole. */
  lemma PatsReadBack(text: string, i: nat, e: nat, ps: seq<ParsedPattern>)
    requires PatsAt(text, i, e, ps)
    ensures PatternsRead(text, i, []) == Ok(Read(ps, e))
  {
    PatternsReadBack(text, i, e, ps, []);
    assert [] + ps == ps;
  }

  /** A `>` line written at `i` up to `f` with a plain description is read as that description. */
  lemma DescReadBack(text: string, i: nat, f: nat, desc: string)
    requires At(text, i, DescLine(desc)) && f == i + |DescLine(desc)| && PlainDesc(desc)
    ensures DescRead(text, i) == Some(Read(desc, f))
  {
    var s := i + 2;
    var e := s + |desc|;
    AtSplit(text, i, "> " + desc, "\n");
    AtSplit(text, i, "> ", desc);
    AtChar(text, i, "> ", 0);
    AtChar(text, i, "> ", 1);
    AtChar(text, e, "\n", 0);
    if desc != [] {
      AtChar(text, s, desc, 0);
    }
    assert RunEnd(text, s, Blanks) == s;
    assert RunEnd(text, i + 1, Blanks) == s;
    forall k | s <= k < e ensures In(LineChars, text[k]) {
      AtChar(text, s, desc, k - s);
    }
    RunEndSkip(text, s, e, LineChars);
    AtSlice(text, s, e, desc);
    assert f == e + 1;
    DescReadFrom(text, i, s, e, desc);
  }

  /** `DescRead` on the pieces it looks at: the `>`, the blanks up to `s` and the line up to its `\n` at `e`. */
  lemma DescReadFrom(text: string, i: nat, s: nat, e: nat, desc: string)
    requires i < |text| && text[i] == '>' && RunEnd(text, i + 1, Blanks) == s
    requires s <= |text| && RunEnd(text, s, LineChars) == e && e < |text| && text[s..e] == desc
    ensures DescRead(text, i) == Some(Read(desc, e + 1))
  {
  }

  /** The head of a rule written at `i` up to `a`, with no space after it. */
  predicate HeadAt(text: string, i: nat, a: nat, name: string, desc: string) {
    IsWord(name) && PlainDesc(desc) && At(text, i, HeadText(name, desc)) && a == i + |HeadText(name, desc)| && NoSpaceAt(text, a)
  }

  /** A head written at `i` up to `a` is read back as its name and description. */
  lemma HeadReadBack(text: string, i: nat, a: nat, name: string, desc: string)
    requires HeadAt(text, i, a, name, desc)
    ensures HeadRead(text, i) == Ok(Read((name, desc), a))
  {
    var m := i + 2 + |name|;
    AtParts(text, i, m + 1, HeadText(name, desc), "# " + name + "\n", DescLine(desc));
    NameReadBack(text, i, m, name);
    AtChar(text, m + 1, DescLine(desc), 0);
    assert RunEnd(text, m + 1, Spaces) == m + 1;
    assert RunEnd(text, m, Spaces) == m + 1;
    DescReadBack(text, m + 1, a, desc);
    assert RunEnd(text, a, Spaces) == a;
    HeadReadFrom(text, i, name, desc, m, m + 1, a);
  }

  /** The `#` line of a rule written at `i` is read as its name, up to its line break at `m`. */
  lemma NameReadBack(text: string, i: nat, m: nat, name: string)
    requires IsWord(name) && At(text, i, "# " + name + "\n") && m == i + 2 + |name|
    ensures m < |text| && text[m] == '\n'
    ensures NameRead(text, i) == Ok(Read(name, m))
  {
    AtSplit(text, i, "# " + name, "\n");
    AtSplit(text, i, "# ", name);
    AtChar(text, i, "# ", 0);
    AtChar(text, i, "# ", 1);
    AtChar(text, m, "\n", 0);
    WordAt(text, i + 2, m, name);
    AtSlice(text, i + 2, m, name);
    assert RunEnd(text, i, Spaces) == i;
    assert RunEnd(text, i + 1, Blanks) == i + 2;
    NameReadFrom(text, i, i + 2, m, name);
  }

  /** `NameRead` on the pieces it looks at: the `#` at `i`, the blanks up to `w` and the word from `w` to `e`. */
  lemma NameReadFrom(text: string, i: nat, w: nat, e: nat, name: string)
    requires i < |text| && RunEnd(text, i, Spaces) == i && text[i] == '#' && RunEnd(text, i + 1, Blanks) == w
    requires w < |text| && IsAlnum(text[w]) && RunEnd(text, w + 1, WordChars) == e && text[w..e] == name
    ensures NameRead(text, i) == Ok(Read(name, e))
  {
  }

  /** `HeadRead` on the pieces it looks at: the name up to `m`, the spaces up to `d` and the description line. */
  lemma HeadReadFrom(text: string, i: nat, name: string, desc: string, m: nat, d: nat, end: nat)
    requires i <= |text| && NameRead(text, i) == Ok(Read(name, m))
    requires RunEnd(text, m, Spaces) == d && DescRead(text, d) == Some(Read(desc, end))
    requires RunEnd(text, end, Spaces) == end
    ensures HeadRead(text, i) == Ok(Read((name, desc), end))
  {
  }

  /**
    The four pieces of a rule's spelling `w`, `head`, `pre`, `->` with its
    line break and `post`, are written one after the other: `pre` at `a`,
    `->` at `b`, and `post` up to `d`.
   */
  lemma RuleSplit(text: string, i: nat, w: string, head: string, pre: string, post: string, a: nat, b: nat, d: nat)
    requires At(text, i, w) && w == head + pre + "->\n" + post
    requires a == i + |head| && b == a + |pre| && d == i + |w|
    ensures At(text, i, head) && At(text, a, pre)
    ensures b + 2 < |text| && text[b] == '-' && text[b + 1] == '>' && text[b + 2] == '\n'
    ensures At(text, b + 3, post) && b + 3 + |post| == d
  {
    AtSplit(text, i, head + pre + "->\n", post);
    AtSplit(text, i, head + pre, "->\n");
    AtSplit(text, i, head, pre);
    AtChar(text, b, "->\n", 0);
    AtChar(text, b, "->\n", 1);
    AtChar(text, b, "->\n", 2);
  }

  /** A block written at `a`, ending at `b` where a block can end, is read back up to `b`. */
  lemma BlockBack(text: string, a: nat, b: nat, ps: seq<ParsedPattern>)
    requires WellSpelledPatterns(ps) && At(text, a, PatternsText(ps)) && b == a + |PatternsText(ps)| && BlockEndAt(text, b)
    ensures PatternsRead(text, a, []) == Ok(Read(ps, b)) && RunEnd(text, b, Spaces) == b && NoSpaceAt(text, a)
  {
    PatsReadBack(text, a, b, ps);
    BlockStart(text, a, b, ps);
  }

  /** A block written at `a`, ending at `b` where a block can end, starts with no space. */
  lemma BlockLead(text: string, a: nat, b: nat, ps: seq<ParsedPattern>)
    requires WellSpelledPatterns(ps) && At(text, a, PatternsText(ps)) && b == a + |PatternsText(ps)| && BlockEndAt(text, b)
    ensures NoSpaceAt(text, a)
  {
    BlockStart(text, a, b, ps);
  }

  /** A printable rule whose pieces are written at `i`, `a`, `b` and `c`, ending at `d`, is read back up to `d`. */
  lemma RuleReadPieces(text: string, i: nat, r: ParsedRule, a: nat, b: nat, c: nat, d: nat)
    requires PrintableRule(r)
    requires At(text, i, HeadText(r.name, r.desc)) && a == i + |HeadText(r.name, r.desc)|
    requires At(text, a, PatternsText(r.pre)) && b == a + |PatternsText(r.pre)|
    requires c == b + 3 && c <= |text| && text[b] == '-' && text[b + 1] == '>' && text[b + 2] == '\n'
    requires At(text, c, PatternsText(r.post)) && d == c + |PatternsText(r.post)| && BlockEndAt(text, d)
    ensures RuleRead(text, i) == Ok(Read(r, d))
  {
    BlockLead(text, a, b, r.pre);
    HeadReadBack(text, i, a, r.name, r.desc);
    RulePrePart(text, i, r, a, b, c, d);
  }

  /** With the head read up to `a`, the pre block written at `a` and the post block at `c` are read, up to `d`. */
  lemma RulePrePart(text: string, i: nat, r: ParsedRule, a: nat, b: nat, c: nat, d: nat)
    requires i <= |text| && HeadRead(text, i) == Ok(Read((r.name, r.desc), a))
    requires WellSpelledPatterns(r.pre) && At(text, a, PatternsText(r.pre)) && b == a + |PatternsText(r.pre)|
    requires c == b + 3 && c <= |text| && text[b] == '-' && text[b + 1] == '>' && text[b + 2] == '\n'
    requires WellSpelledPatterns(r.post) && At(text, c, PatternsText(r.post)) && d == c + |PatternsText(r.post)| && BlockEndAt(text, d)
    ensures RuleRead(text, i) == Ok(Read(r, d))
  {
    BlockBack(text, a, b, r.pre);
    RulePostPart(text, i, r, a, b, c, d);
  }

  /** With the head and the pre block read, the post block written at `c` is read, up to `d`. */
  lemma RulePostPart(text: string, i: nat, r: ParsedRule, a: nat, b: nat, c: nat, d: nat)
    requires i <= |text| && HeadRead(text, i) == Ok(Read((r.name, r.desc), a))
    requires PatternsRead(text, a, []) == Ok(Read(r.pre, b)) && RunEnd(text, b, Spaces) == b
    requires c == b + 3 && c <= |text| && text[b] == '-' && text[b + 1] == '>' && text[b + 2] == '\n'
    requires WellSpelledPatterns(r.post) && At(text, c, PatternsText(r.post)) && d == c + |PatternsText(r.post)| && BlockEndAt(text, d)
    ensures RuleRead(text, i) == Ok(Read(r, d))
  {
    BlockBack(text, c, d, r.post);
    RuleReadLine(text, i, r, a, b, c, d);
  }

  /** The `->` line between the blocks: the run of spaces after `->` ends where the post block starts. */
  lemma RuleReadLine(text: string, i: nat, r: ParsedRule, a: nat, b: nat, c: nat, d: nat)
    requires i <= |text| && HeadRead(text, i) == Ok(Read((r.name, r.desc), a))
    requires PatternsRead(text, a, []) == Ok(Read(r.pre, b)) && RunEnd(text, b, Spaces) == b
    requires c == b + 3 && c <= |text| && text[b] == '-' && text[b + 1] == '>' && text[b + 2] == '\n' && NoSpaceAt(text, c)
    requires PatternsRead(text, c, []) == Ok(Read(r.post, d)) && RunEnd(text, d, Spaces) == d
    ensures RuleRead(text, i) == Ok(Read(r, d))
  {
    assert RunEnd(text, c, Spaces) == c;
    RuleReadFrom(text, i, r, a, b, d);
  }

  /** `RuleRead` on the pieces it looks at: the head up to `a`, the pre block up to `b`, `->` and the post block up to `d`. */
  lemma RuleReadFrom(text: string, i: nat, r: ParsedRule, a: nat, b: nat, d: nat)
    requires i <= |text| && HeadRead(text, i) == Ok(Read((r.name, r.desc), a))
    requires PatternsRead(text, a, []) == Ok(Read(r.pre, b)) && RunEnd(text, b, Spaces) == b
    requires b + 2 < |text| && text[b] == '-' && text[b + 1] == '>' && RunEnd(text, b + 2, Spaces) == b + 3
    requires PatternsRead(text, b + 3, []) == Ok(Read(r.post, d)) && RunEnd(text, d, Spaces) == d
    ensures RuleRead(text, i) == Ok(Read(r, d))
  {
  }

  /** A printable rule spelled `w` at `i`, up to `d` where a block can end, is read back, and reading stops at `d`. */
  lemma RuleReadBack(text: string, i: nat, d: nat, r: ParsedRule, w: string)
    requires w == RuleText(r) && PrintableRule(r) && At(text, i, w) && d == i + |w| && BlockEndAt(text, d)
    ensures RuleRead(text, i) == Ok(Read(r, d))
  {
    var a := i + |HeadText(r.name, r.desc)|;
    var b := a + |PatternsText(r.pre)|;
    RuleSplit(text, i, w, HeadText(r.name, r.desc), PatternsText(r.pre), PatternsText(r.post), a, b, d);
    RuleReadPieces(text, i, r, a, b, b + 3, d);
  }

  /** A rule read at `i` up to `j`, not at the end of the text, joins the rules read so far. */
  lemma RulesNext(text: string, i: nat, j: nat, acc: seq<ParsedRule>, r: ParsedRule)
    requires i < |text| && RuleRead(text, i) == Ok(Read(r, j))
    ensures RulesRead(text, i, acc) == RulesRead(text, j, acc + [r])
  {
  }

  /** The rules after the first of printable rules are printable, and their spelling follows the first rule's. */
  lemma RulesTail(rs: seq<ParsedRule>)
    requires PrintableRules(rs) && rs != []
    ensures PrintableRule(rs[0]) && PrintableRules(rs[1..])
    ensures RulesText(rs) == RuleText(rs[0]) + RulesText(rs[1..])
  {
    assert forall k :: 0 <= k < |rs[1..]| ==> rs[1..][k] == rs[k + 1];
  }

  /** The spelling of rules starts with the `#` of the first one. */
  lemma RulesHead(rs: seq<ParsedRule>)
    requires rs != []
    ensures |RulesText(rs)| > 0 && RulesText(rs)[0] == '#'
  {
    assert RuleText(rs[0])[0] == '#';
    assert RulesText(rs) == RuleText(rs[0]) + RulesText(rs[1..]);
  }

  /** Where rules are spelled up to the end of the text, a block can end. */
  lemma RulesBoundary(text: string, j: nat, rs: seq<ParsedRule>)
    requires At(text, j, RulesText(rs)) && j + |RulesText(rs)| == |text|
    ensures BlockEndAt(text, j)
  {
    if rs != [] {
      RulesHead(rs);
      AtChar(text, j, RulesText(rs), 0);
    }
  }

  /** `w`, written at `i`, is `u` followed, from `j`, by `v`. */
  lemma AtParts(text: string, i: nat, j: nat, w: string, u: string, v: string)
    requires At(text, i, w) && w == u + v && j == i + |u|
    ensures At(text, i, u) && At(text, j, v) && j + |v| == i + |w|
  {
    AtSplit(text, i, u, v);
  }

  /** Rules spelled at `i`, up to the end of the text, are the first rule, up to `j` where a block can end, followed by the others. */
  lemma RulesFirst(text: string, i: nat, j: nat, rs: seq<ParsedRule>)
    requires rs != [] && j == i + |RuleText(rs[0])|
    requires PrintableRules(rs) && At(text, i, RulesText(rs)) && i + |RulesText(rs)| == |text|
    ensures PrintableRule(rs[0]) && At(text, i, RuleText(rs[0])) && BlockEndAt(text, j)
    ensures PrintableRules(rs[1..]) && At(text, j, RulesText(rs[1..])) && j + |RulesText(rs[1..])| == |text|
  {
    RulesTail(rs);
    AtParts(text, i, j, RulesText(rs), RuleText(rs[0]), RulesText(rs[1..]));
    RulesBoundary(text, j, rs[1..]);
  }

  /** Reading printable rules spelled from `i` to the end of the text, after `acc`, gives `acc` and all of them. */
  lemma {:induction false} RulesReadBack(text: string, i: nat, rs: seq<ParsedRule>, acc: seq<ParsedRule>)
    requires PrintableRules(rs) && At(text, i, RulesText(rs)) && i + |RulesText(rs)| == |text|
    ensures RulesRead(text, i, acc) == Ok(Read(acc + rs, |text|))
    decreases |rs|, 2
  {
    if rs == [] {
      assert acc + rs == acc;
    } else {
      RulesReadOn(text, i, rs, acc);
    }
  }

  /** The inductive step of `RulesReadBack`: the first rule, then the others. */
  lemma {:induction false} RulesReadOn(text: string, i: nat, rs: seq<ParsedRule>, acc: seq<ParsedRule>)
    requires rs != [] && PrintableRules(rs) && At(text, i, RulesText(rs)) && i + |RulesText(rs)| == |text|
    ensures RulesRead(text, i, acc) == Ok(Read(acc + rs, |text|))
    decreases |rs|, 1
  {
    var j := i + |RuleText(rs[0])|;
    RulesFirst(text, i, j, rs);
    RuleReadBack(text, i, j, rs[0], RuleText(rs[0]));
    RulesNext(text, i, j, acc, rs[0]);
    RulesRest(text, j, rs, acc);
  }

  /** After the first rule, the others are read, and with the first they are all of them. */
  lemma {:induction false} RulesRest(text: string, j: nat, rs: seq<ParsedRule>, acc: seq<ParsedRule>)
    requires rs != [] && PrintableRules(rs[1..]) && At(text, j, RulesText(rs[1..])) && j + |RulesText(rs[1..])| == |text|
    ensures RulesRead(text, j, acc + [rs[0]]) == Ok(Read(acc + rs, |text|))
    decreases |rs|, 0
  {
    RulesReadBack(text, j, rs[1..], acc + [rs[0]]);
    JoinFirst(rs, acc);
  }

  /** What is read after the first element, put after it, is all of the elements. */
  lemma JoinFirst<T>(xs: seq<T>, acc: seq<T>)
    requires xs != []
    ensures (acc + [xs[0]]) + xs[1..] == acc + xs
  {
  }

  /** A string is written at the start of itself. */
  lemma AtSelf(w: string)
    ensures At(w, 0, w)
  {
  }

  /** Reading the canonical spelling of printable rules gives the rules back. */
  lemma RulesRoundTrip(rs: seq<ParsedRule>)
    requires PrintableRules(rs)
    ensures RulesRead(RulesText(rs), 0, []) == Ok(Read(rs, |RulesText(rs)|))
  {
    AtSelf(RulesText(rs));
    RulesReadBack(RulesText(rs), 0, rs, []);
    assert [] + rs == rs;
  }

  /** Reading the canonical spelling of well-spelled patterns, after no leading space, gives the patterns back. */
  lemma PatternsRoundTrip(ps: seq<ParsedPattern>)
    requires WellSpelledPatterns(ps)
    ensures var text := PatternsText(ps);
      RunEnd(text, 0, Spaces) == 0 && PatternsRead(text, 0, []) == Ok(Read(ps, |text|))
  {
    AtSelf(PatternsText(ps));
    BlockStart(PatternsText(ps), 0, |PatternsText(ps)|, ps);
    PatsReadBack(PatternsText(ps), 0, |PatternsText(ps)|, ps);
  }

  // ---------------------------------------------------------------- the parser object

  /** A lexer over `text` whose cursor `pos` only moves forward. */
  class Parser {
    const text: string
    var pos: nat

    ghost predicate Valid()
      reads this
    {
      pos <= |text|
    }

    constructor (text: string)
      ensures this.text == text && pos == 0 && Valid()
    {
      this.text := text;
      pos := 0;
    }

    /** Consumes `lit` if the text continues with it. */
    method LexLit(lit: string) returns (r: Option<string>)
      requires Valid()
      modifies this
      ensures Valid()
      ensures if At(text, old(pos), lit)
              then r == Some(lit) && pos == old(pos) + |lit|
              else r == None && pos == old(pos)
    {
      if pos + |lit| > |text| {
        return None;
      }
      AtSlice(text, pos, pos + |lit|, lit);
      if text[pos..pos + |lit|] == lit {
        pos := pos + |lit|;
        return Some(lit);
      }
      return None;
    }

    /** Finds the end of the longest run of `cls` characters from `from`, without moving. */
    method ScanRun(from: nat, cls: Class) returns (e: nat)
      requires from <= |text|
      ensures e == RunEnd(text, from, cls)
    {
      e := from;
      while e < |text| && In(cls, text[e])
        invariant from <= e <= |text|
        invariant RunEnd(text, e, cls) == RunEnd(text, from, cls)
        decreases |text| - e
      {
        e := e + 1;
      }
    }

    /** `[A-Za-z0-9][A-Za-z0-9\-]*`: fails on anything else, `-` and `#` included. */
    method LexWord() returns (r: Option<string>)
      requires Valid()
      modifies this
      ensures Valid() && old(pos) <= pos
      ensures r.Some? <==> old(pos) < |text| && IsAlnum(text[old(pos)])
      ensures r.Some? ==> pos == RunEnd(text, old(pos) + 1, WordChars) && r.value == text[old(pos)..pos] && IsWord(r.value)
      ensures r.None? ==> pos == old(pos)
    {
      if pos < |text| && IsAlnum(text[pos]) {
        var e := ScanRun(pos + 1, WordChars);
        WordRun(text, pos);
        r := Some(text[pos..e]);
        pos := e;
      } else {
        r := None;
      }
    }

    /** `[ \t]+` */
    method LexWs() returns (r: Option<string>)
      requires Valid()
      modifies this
      ensures Valid()
      ensures pos == RunEnd(text, old(pos), Blanks)
      ensures r == if old(pos) < pos then Some(text[old(pos)..pos]) else None
    {
      var e := ScanRun(pos, Blanks);
      r := if pos < e then Some(text[pos..e]) else None;
      pos := e;
    }

    /**
      Blanks, then `[\r\n \t]+`.  Either way the cursor ends after the whole
      run of `[\r\n \t]`; the call succeeds when that run holds a line break,
      and a failing call keeps the blanks it consumed.
     */
    method LexLine() returns (r: Option<string>)
      requires Valid()
      modifies this
      ensures Valid()
      ensures pos == RunEnd(text, old(pos), Spaces)
      ensures var b := RunEnd(text, old(pos), Blanks); r == if b < pos then Some(text[b..pos]) else None
      ensures r.Some? <==> exists k :: old(pos) <= k < pos && IsLineBreak(text[k])
    {
      var _ := LexWs();
      var b := pos;
      var e := ScanRun(b, Spaces);
      RunEndIn(text, old(pos), Blanks);
      RunEndSkip(text, old(pos), b, Spaces);
      if b < e {
        assert IsLineBreak(text[b]);
        r := Some(text[b..e]);
        pos := e;
      } else {
        r := None;
      }
    }

    /** `[-+]` */
    method LexSign() returns (r: Option<char>)
      requires Valid()
      modifies this
      ensures Valid()
      ensures r.Some? <==> old(pos) < |text| && IsSign(text[old(pos)])
      ensures r.Some? ==> r.value == text[old(pos)] && pos == old(pos) + 1
      ensures r.None? ==> pos == old(pos)
    {
      if pos < |text| && IsSign(text[pos]) {
        r := Some(text[pos]);
        pos := pos + 1;
      } else {
        r := None;
      }
    }

    /** `[A-Za-z0-9][A-Za-z0-9\-]+!?` */
    method LexTagName() returns (r: Option<string>)
      requires Valid()
      modifies this
      ensures Valid() && old(pos) <= pos
      ensures r.Some? <==> old(pos) + 1 < |text| && IsAlnum(text[old(pos)]) && IsWordChar(text[old(pos) + 1])
      ensures r.Some? ==> pos == TagNameEnd(text, old(pos)) && r.value == text[old(pos)..pos] && IsTagName(r.value)
      ensures r.None? ==> pos == old(pos)
    {
      if pos + 1 < |text| && IsAlnum(text[pos]) && IsWordChar(text[pos + 1]) {
        var e := ScanRun(pos + 1, WordChars);
        var end := if e < |text| && text[e] == '!' then e + 1 else e;
        TagNameRun(text, pos);
        r := Some(text[pos..end]);
        pos := end;
      } else {
        r := None;
      }
    }

    /** `>[ \t]*(.*)[\r\n]`, returning the group; `DescReadMatches` states what it matches. */
    method LexDesc() returns (r: Option<string>)
      requires Valid()
      modifies this
      ensures Valid()
      ensures var d := DescRead(text, old(pos));
        if d.Some? then r == Some(d.value.value) && pos == d.value.end else r == None && pos == old(pos)
    {
      if !(pos < |text| && text[pos] == '>') {
        return None;
      }
      var s := ScanRun(pos + 1, Blanks);
      var e := ScanRun(s, LineChars);
      if e < |text| {
        r := Some(text[s..e]);
        pos := e + 1;
      } else {
        var q := |text|;
        while q > s && text[q - 1] != '\r'
          invariant s <= q <= |text|
          invariant CrAfter(text, s, q) == CrAfter(text, s, |text|)
          decreases q
        {
          q := q - 1;
        }
        if q == s {
          r := None;
        } else {
          r := Some(text[s..q - 1]);
          pos := q;
        }
      }
    }

    /** `parse_binds`: `(` word (`,` word)* `)` with blanks anywhere inside, or nothing when no `(` follows. */
    method ParseBinds() returns (r: Result<seq<string>>)
      requires Valid()
      modifies this
      ensures Valid() && Gave(r, pos, BindsRead(text, old(pos)))
    {
      AtOne(text, pos, '(');
      var open := LexLit("(");
      if open.None? {
        return Ok([]);
      }
      var _ := LexWs();
      r := ParseBindList();
    }

    /** The loop of `parse_binds` after the `(`: binds up to the closing `)`. */
    method ParseBindList() returns (r: Result<seq<string>>)
      requires Valid()
      modifies this
      ensures Valid() && Gave(r, pos, BindListRead(text, old(pos), []))
    {
      var binds: seq<string> := [];
      var first := true;
      while true
        invariant Valid()
        invariant first <==> binds == []
        invariant BindListRead(text, pos, binds) == BindListRead(text, old(pos), [])
        decreases |text| - pos
      {
        AtOne(text, pos, ')');
        var close := LexLit(")");
        if close.Some? {
          return Ok(binds);
        }
        var bind := LexBind(first);
        if bind.Fail? {
          return Fail(bind.msg);
        }
        binds := binds + [bind.value];
        first := false;
      }
    }

    /**
      One round of the bind loop: a `,` unless this is the first bind,
      blanks, the bind's word and the blanks after it.
     */
    method LexBind(first: bool) returns (r: Result<string>)
      requires Valid()
      modifies this
      ensures Valid() && Gave(r, pos, BindRead(text, old(pos), first))
    {
      if !first {
        AtOne(text, pos, ',');
        var comma := LexLit(",");
        if comma.None? {
          return Fail("Expected ',' between binds");
        }
        var _ := LexWs();
      }
      var bind := LexWord();
      if bind.None? {
        return Fail("Expected bind");
      }
      var _ := LexWs();
      r := Ok(bind.value);
    }

    /** `parse_tag`: a sign, a tag name and optional binds, as in `+hold(thing)`. */
    method ParseTag() returns (r: Result<ParsedTag>)
      requires Valid()
      modifies this
      ensures Valid() && Gave(r, pos, TagRead(text, old(pos)))
    {
      var sign := LexSign();
      if sign.None? {
        return Fail("Expected sign");
      }
      var name := LexTagName();
      if name.None? {
        return Fail("Expected tag name");
      }
      var binds := ParseBinds();
      if binds.Fail? {
        return Fail(binds.msg);
      }
      r := Ok(ParsedTag(sign.value == '+', name.value, binds.value));
    }

    /** The inner loop of `parse_patterns`: the tags after an entity word, up to a line break. */
    method ParseLineTags(entity: string) returns (r: Result<seq<ParsedPattern>>)
      requires Valid()
      modifies this
      ensures Valid() && Gave(r, pos, LineTagsRead(text, old(pos), entity, []))
    {
      var tags: seq<ParsedPattern> := [];
      while true
        invariant Valid()
        invariant LineTagsRead(text, pos, entity, tags) == LineTagsRead(text, old(pos), entity, [])
        decreases |text| - pos
      {
        var line := LexLine();
        if line.Some? {
          return Ok(tags);
        }
        var _ := LexWs();
        var tag := ParseTag();
        if tag.Fail? {
          return Fail(tag.msg);
        }
        tags := tags + [ParsedPattern(entity, tag.value)];
      }
    }

    /**
      `parse_patterns`: lines of an entity word followed by tags, up to the
      first position (after blanks) where no word starts; every tag of a
      line is paired with that line's word.
     */
    method ParsePatterns() returns (r: Result<seq<ParsedPattern>>)
      requires Valid()
      modifies this
      ensures Valid() && Gave(r, pos, PatternsRead(text, old(pos), []))
    {
      var pats: seq<ParsedPattern> := [];
      ghost var goal := PatternsRead(text, pos, []);
      while true
        invariant Valid()
        invariant PatternsRead(text, pos, pats) == goal
        decreases |text| - pos
      {
        ghost var p := pos;
        var line := ParsePatternLine();
        if line.None? {
          PatternsStop(text, p, pats);
          return Ok(pats);
        }
        if line.value.Fail? {
          return Fail(line.value.msg);
        }
        pats := pats + line.value.value;
      }
    }

    /**
      One round of the outer loop of `parse_patterns`: blanks, then the
      entity word and the tags after it, or nothing when no word starts.
     */
    method ParsePatternLine() returns (r: Option<Result<seq<ParsedPattern>>>)
      requires Valid()
      modifies this
      ensures Valid()
      ensures var b := RunEnd(text, old(pos), Blanks);
        if b < |text| && IsAlnum(text[b])
        then var e := RunEnd(text, b + 1, WordChars);
          r.Some? && Gave(r.value, pos, LineTagsRead(text, e, text[b..e], []))
        else r == None && pos == b
    {
      var _ := LexWs();
      var entity := LexWord();
      if entity.None? {
        return None;
      }
      var tags := ParseLineTags(entity.value);
      return Some(tags);
    }

    /** `parse_rule`: the head, the pre block, `->` and the post block. */
    method ParseRule() returns (r: Result<ParsedRule>)
      requires Valid()
      modifies this
      ensures Valid() && Gave(r, pos, RuleRead(text, old(pos)))
    {
      var head := ParseHead();
      if head.Fail? {
        return Fail(head.msg);
      }
      r := ParseRuleBody(head.value);
    }

    /** `parse_rule` after the head: the pre block and the spaces after it, then `->` and the post block. */
    method ParseRuleBody(head: (string, string)) returns (r: Result<ParsedRule>)
      requires Valid()
      modifies this
      ensures Valid() && Gave(r, pos, RuleBodyRead(text, old(pos), head))
    {
      var pre := ParsePatterns();
      if pre.Fail? {
        return Fail(pre.msg);
      }
      var _ := LexLine();
      r := ParseArrow(head, pre.value);
    }

    /** `parse_rule` after the pre block: `->`, the spaces after it, the post block and the spaces after that. */
    method ParseArrow(head: (string, string), pre: seq<ParsedPattern>) returns (r: Result<ParsedRule>)
      requires Valid()
      modifies this
      ensures Valid() && Gave(r, pos, ArrowRead(text, old(pos), head, pre))
    {
      AtTwo(text, pos, '-', '>');
      var arrow := LexLit("->");
      if arrow.None? {
        return Fail("Expected '->'");
      }
      var _ := LexLine();
      var post := ParsePatterns();
      if post.Fail? {
        return Fail(post.msg);
      }
      var _ := LexLine();
      r := Ok(ParsedRule(head.0, head.1, pre, post.value));
    }

    /** The start of `parse_rule`: spaces, the `#`, blanks and the rule's name. */
    method ParseName() returns (r: Result<string>)
      requires Valid()
      modifies this
      ensures Valid() && Gave(r, pos, NameRead(text, old(pos)))
    {
      var _ := LexLine();
      AtOne(text, pos, '#');
      var head := LexLit("#");
      if head.None? {
        return Fail("Expected '#'");
      }
      var _ := LexWs();
      var name := LexWord();
      if name.None? {
        return Fail("Expected rule name");
      }
      r := Ok(name.value);
    }

    /** The head of `parse_rule`: the `#` line with the name, then the `>` description line. */
    method ParseHead() returns (r: Result<(string, string)>)
      requires Valid()
      modifies this
      ensures Valid() && Gave(r, pos, HeadRead(text, old(pos)))
    {
      var name := ParseName();
      if name.Fail? {
        return Fail(name.msg);
      }
      var _ := LexLine();
      var desc := LexDesc();
      if desc.None? {
        return Fail("Expected rule description");
      }
      var _ := LexLine();
      r := Ok((name.value, desc.value));
    }

    /** `parse_rules`: rules, one after another, until the cursor reaches the end of the text. */
    method ParseRules() returns (r: Result<seq<ParsedRule>>)
      requires Valid()
      modifies this
      ensures Valid() && Gave(r, pos, RulesRead(text, old(pos), []))
    {
      var rules: seq<ParsedRule> := [];
      while pos < |text|
        invariant Valid()
        invariant RulesRead(text, pos, rules) == RulesRead(text, old(pos), [])
        decreases |text| - pos
      {
        var rule := ParseRule();
        if rule.Fail? {
          return Fail(rule.msg);
        }
        rules := rules + [rule.value];
      }
      return Ok(rules);
    }

    /** `parse_entities`: one block of pattern lines, collected into an entity table. */
    method ParseEntities() returns (r: Result<EntityTable>)
      requires Valid()
      modifies this
      ensures Valid()
      ensures var ps := PatternsRead(text, RunEnd(text, old(pos), Spaces), []);
        if ps.Ok? then r.Ok? && Collected(r.value, ps.value.value) else r == Fail(ps.msg)
    {
      var _ := LexLine();
      var pats := ParsePatterns();
      if pats.Fail? {
        return Fail(pats.msg);
      }
      var table := CollectEntities(pats.value);
      return Ok(table);
    }
  }

  // ---------------------------------------------------------------- the entity table

  /**
    `t` is the table `parse_entities` builds from `pats`: one entry per
    entity name, numbered `0, 1, ..` in some order, each holding that
    name's positive tags in text order.
   */
  predicate Collected(t: EntityTable, pats: seq<ParsedPattern>) {
    && t.entries.Keys == EntityNames(pats)
    && |t.order| == |EntityNames(pats)|
    && Numbered(t)
    && forall n :: n in t.entries ==> t.entries[n].tags == PositiveTags(pats, n)
  }

  /** The table collected from well-spelled patterns is well spelled. */
  lemma CollectedSpelled(t: EntityTable, pats: seq<ParsedPattern>)
    requires Collected(t, pats) && WellSpelledPatterns(pats)
    ensures WellSpelledTable(t)
  {
    PositiveTagsSpelled(pats);
  }


  /** The positive tags collected from well-spelled patterns are well spelled. */
  lemma {:induction false} PositiveTagsSpelled(pats: seq<ParsedPattern>)
    requires WellSpelledPatterns(pats)
    ensures forall n :: n in EntityNames(pats) ==> IsWord(n)
    ensures forall n, k :: 0 <= k < |PositiveTags(pats, n)| ==>
      IsTagName(PositiveTags(pats, n)[k].name) && AllWords(PositiveTags(pats, n)[k].binds)
    decreases |pats|
  {
    if pats != [] {
      var init := pats[..|pats| - 1];
      assert WellSpelledPatterns(init) by {
        forall k | 0 <= k < |init| ensures IsWord(init[k].entity) && WellSpelledTag(init[k].tag) {
          assert init[k] == pats[k];
        }
      }
      PositiveTagsSpelled(init);
    }
  }

  /**
    Numbers the distinct entity names of `pats` in some order (the source
    enumerates a set) and collects each name's positive tags in text order.
   */
  method CollectEntities(pats: seq<ParsedPattern>) returns (t: EntityTable)
    ensures t.entries.Keys == EntityNames(pats) && |t.order| == |EntityNames(pats)|
    ensures Numbered(t)
    ensures forall n :: n in t.entries ==> t.entries[n].tags == PositiveTags(pats, n)
  {
    var names := EntityNames(pats);
    t := NumberNames(names);
    for k := 0 to |pats|
      invariant t.entries.Keys == names && |t.order| == |names|
      invariant Numbered(t)
      invariant forall n :: n in t.entries ==> t.entries[n].tags == PositiveTags(pats[..k], n)
    {
      PositiveTagsStep(pats, k);
      ghost var m0 := t.entries;
      t := AddPositive(t, pats[k]);
      forall n | n in t.entries ensures t.entries[n].tags == PositiveTags(pats[..k + 1], n) {
        if n != pats[k].entity {
          assert t.entries[n] == m0[n];
        }
      }
    }
    assert pats[..|pats|] == pats;
  }

  /** `if p[1][0]: tags[p[0]][1].append(p[1][1:])`: a positive tag joins its entity's list. */
  method AddPositive(t: EntityTable, p: ParsedPattern) returns (t': EntityTable)
    requires Numbered(t) && p.entity in t.entries
    ensures t'.order == t.order && t'.entries.Keys == t.entries.Keys && Numbered(t')
    ensures forall n :: n in t.entries && n != p.entity ==> t'.entries[n] == t.entries[n]
    ensures t'.entries[p.entity].tags ==
      t.entries[p.entity].tags + (if p.tag.sign then [NamedTag(p.tag.name, p.tag.binds)] else [])
  {
    t' := t;
    if p.tag.sign {
      var entry := t.entries[p.entity];
      var m' := t.entries[p.entity := entry.(tags := entry.tags + [NamedTag(p.tag.name, p.tag.binds)])];
      assert forall n :: n in m' ==> m'[n].index == t.entries[n].index;
      t' := t.(entries := m');
    }
  }

  /** The positive tags of one more pattern: at most that pattern's tag is added, for its own entity only. */
  lemma PositiveTagsStep(pats: seq<ParsedPattern>, k: nat)
    requires k < |pats|
    ensures forall n :: n != pats[k].entity || !pats[k].tag.sign ==> PositiveTags(pats[..k + 1], n) == PositiveTags(pats[..k], n)
    ensures pats[k].tag.sign ==>
      PositiveTags(pats[..k + 1], pats[k].entity) == PositiveTags(pats[..k], pats[k].entity) + [NamedTag(pats[k].tag.name, pats[k].tag.binds)]
  {
    assert pats[..k + 1][..k] == pats[..k];
    forall n | n != pats[k].entity || !pats[k].tag.sign ensures PositiveTags(pats[..k + 1], n) == PositiveTags(pats[..k], n) {
      assert PositiveTags(pats[..k], n) + [] == PositiveTags(pats[..k], n);
    }
  }

  /**
    `{n: (i, []) for i, n in enumerate(names)}`: the names, enumerated in
    some order, are inserted with their positions as indices.
   */
  method NumberNames(names: set<string>) returns (t: EntityTable)
    ensures t.entries.Keys == names && |t.order| == |names|
    ensures Numbered(t)
    ensures forall n :: n in t.entries ==> t.entries[n].tags == []
  {
    var rest := names;
    var order: seq<string> := [];
    var m: map<string, EntityEntry> := map[];
    while rest != {}
      invariant rest <= names
      invariant m.Keys == names - rest
      invariant |rest| + |order| == |names|
      invariant forall n :: n in m ==> n in order
      invariant forall i :: 0 <= i < |order| ==> order[i] in m && m[order[i]].index == i
      invariant forall n :: n in m ==> m[n].tags == []
      decreases rest
    {
      var n :| n in rest;
      m := m[n := EntityEntry(|order|, [])];
      order := order + [n];
      rest := rest - {n};
    }
    t := EntityTable(order, m);
  }

  // ---------------------------------------------------------------- module-level entry points

  /**
    `parse_rules(s)` at module level: the rules `RulesRead` reads from the
    whole text.  What it returns is well spelled, and it gives back every
    printable rule list from its printed text.
   */
  method ParseRules(s: string) returns (r: Result<seq<ParsedRule>>)
    ensures match RulesRead(s, 0, [])
      case Ok(read) => r == Ok(read.value)
      case Fail(msg) => r == Fail(msg)
    ensures r.Ok? ==> PrintableRules(r.value)
    ensures r.Ok? ==> forall k :: 0 <= k < |r.value| ==> WellSpelledRule(r.value[k])
    ensures r.Fail? ==> RuleError(r.msg)
    ensures s == "" ==> r == Ok([])
    ensures forall rs :: PrintableRules(rs) && s == RulesText(rs) ==> r == Ok(rs)
  {
    var p := new Parser(s);
    r := p.ParseRules();
    RulesReadSound(s, 0, []);
    forall rs | PrintableRules(rs) && s == RulesText(rs) ensures r == Ok(rs) {
      RulesRoundTrip(rs);
    }
  }

  /**
    `parse_entities(s)` at module level: the table collected from the
    patterns read after the leading whitespace.  It is well spelled, and
    printed patterns give back their own table.
   */
  method ParseEntities(s: string) returns (r: Result<EntityTable>)
    ensures var ps := PatternsRead(s, RunEnd(s, 0, Spaces), []);
      if ps.Ok? then r.Ok? && Collected(r.value, ps.value.value) else r == Fail(ps.msg)
    ensures r.Ok? ==> Numbered(r.value) && WellSpelledTable(r.value)
    ensures r.Fail? ==> TagError(r.msg)
    ensures forall ps :: WellSpelledPatterns(ps) && s == PatternsText(ps) ==> r.Ok? && Collected(r.value, ps)
  {
    var p := new Parser(s);
    r := p.ParseEntities();
    var b := RunEnd(s, 0, Spaces);
    PatternsReadSound(s, b, []);
    var ps := PatternsRead(s, b, []);
    if ps.Ok? {
      CollectedSpelled(r.value, ps.value.value);
    }
    forall qs | WellSpelledPatterns(qs) && s == PatternsText(qs) ensures r.Ok? && Collected(r.value, qs) {
      PatternsRoundTrip(qs);
    }
  }
}

# Entity-rule database prototype, modelled in Dafny

This is a model of the core of a small rule engine for a simulation. It is
written in Python and made of two modules.

- `db_parse.py` is a lexer and recursive-descent parser. It reads a text of
  rules and a text of entities. A rule has a `#` name line, a `>` description
  line, a block of precondition patterns, `->` and a block of postcondition
  patterns. An entity list is one block of pattern lines.
- `db_proto.py` is the engine. Entities carry tags, and a tag may be bound to
  other entities by id. A rule names its entities by local index.
  - `forward` checks its preconditions and applies its postconditions.
  - `backward` regresses a state to one that satisfies the preconditions.
  - Both work on a selection of a pool picked by a *swizzle*, a list of pool
    indices, and splice the result back into the pool.
  - `create_rule`, `create_pattern` and `create_entity` turn parsed,
    name-based records into the engine's index-based ones.

The project has five files.

- `wrappers.dfy`: `Option` and `Result`. A Python exception becomes `Fail`
  carrying the exception's message.
- `text.dfy`: the lexer's character classes, the longest-run scanner
  `RunEnd`, blank stripping and comma joining, with their lemmas.
- `db_parse.dfy`: the parser records, and the parser as a class whose
  cursor field `pos` every lexer method advances.
  - `Parser` and `DbParser` of the source are merged into one class.
  - Each regular expression is an explicit character-class scanner.
  - Each parsing method is proved to return, and to leave the cursor where, a
    reader function on the text says (`BindsRead`, `TagRead`, `PatternsRead`,
    `RuleRead`, `RulesRead` and the others; `Gave` ties the two).
  - Lemmas about the reader functions state that what is read is well spelled
    (the `…Sound` lemmas), and that the canonical spelling of well-spelled
    records is read back as exactly those records (the `…ReadBack` lemmas and
    the round trips `RulesRoundTrip` and `PatternsRoundTrip`).
  - `parse_rule` is split into `ParseName`, `ParseHead`, `ParseRuleBody` and
    `ParseArrow`; the rounds of `parse_patterns`' outer loop are
    `ParsePatternLine`, and its inner loop is `ParseLineTags`.
  - `parse_entities`' dictionary is an `EntityTable`: its entries, plus its
    keys in insertion order.
- `db_proto.dfy`: the engine.
  - `tag_match`, `unswizzle_tuple`, `forward` and `backward` are methods
    with the source's loops and in-place updates. Each is proved equal to a
    specification function: `TagMatches`, `Unswizzled`, `Forwarded`,
    `Regressed`.
  - Lemmas state what those functions promise: frames, round trips, the
    last-writer-wins reading of postconditions, and forward-after-backward.
  - The loading passes turn parsed records into rules and entities, and
    prove that spelling the result back gives the records.
- `db_proto_example.dfy`: the demo script's chain, worked through the model.
  - The three rules of `db_proto_test.py` are created from their parsed
    records.
  - Four entities are regressed through weapon-hit, pick-up and drop.
  - The rules are then replayed forwards in the opposite order, and every
    step succeeds.

Tags and notags are sets, because the source turns sets into tuples in an
unspecified order. Entity numbering in `parse_entities` is whatever order a
set is enumerated in (`:|` in `NumberNames`).

## Model

| member | source | states |
|---|---|---|
| Text.CommaJoinedInjective | db_parse.py:44-59 | non-empty, comma-free words are determined by their comma-joined text, so the text between parentheses determines a bind list |
| DbParse.NumberedIndices | db_parse.py:121-122 | in a numbered table every key's index is a position whose key is that key, and the keys in insertion order are distinct |
| DbParse.BindRead | db_parse.py:51-58 | one round of the bind loop reads past the cursor and stays in the text; its only failures are "Expected ',' between binds" and "Expected bind" |
| DbParse.BindListRead | db_parse.py:50-59 | the bind loop up to `)` ends past its start, inside the text, or fails with a bind error |
| DbParse.BindsRead | db_parse.py:44-59 | without a `(` next, no binds are read and the cursor stays; otherwise the list ends inside the text, or fails with a bind error |
| DbParse.TagRead | db_parse.py:61-70 | a tag read ends past its start; its only failures are "Expected sign", "Expected tag name" and the bind errors |
| DbParse.LineTagsRead | db_parse.py:79-84 | the tags of one pattern line end inside the text, or fail with a tag error |
| DbParse.PatternsRead | db_parse.py:72-84 | a block of pattern lines ends inside the text, or fails with a tag error |
| DbParse.DescRead | db_parse.py:97-99 | a description match ends past the `>` and inside the text |
| DbParse.NameRead | db_parse.py:87-93 | the `#` and the name end past the start, inside the text, or fail with a rule error |
| DbParse.HeadRead | db_parse.py:87-99 | the head ends past the start, inside the text, or fails with a rule error |
| DbParse.RuleRead | db_parse.py:86-112 | a rule read ends past its start and inside the text; every failure is a rule error |
| DbParse.RuleBodyRead | db_parse.py:102-112 | what follows the head ends inside the text, or fails with a rule error |
| DbParse.ArrowRead | db_parse.py:105-112 | the arrow and the post block end past the arrow's start, inside the text, or fail with a rule error |
| DbParse.RulesRead | db_parse.py:114-116 | reading rules either reaches the end of the text or fails with a rule error |
| DbParse.BindReadSound | db_parse.py:51-58 | a bind read is a word, and the text it took is its separator (a comma unless it is the first) and the word, blanks removed |
| DbParse.BindListReadSound | db_parse.py:48-59 | the bind loop after `(` reads words, and the text it took is `(`, the comma-joined binds and `)`, blanks removed |
| DbParse.BindsReadSound | db_parse.py:44-59 | binds read are words; after a `(` the text taken is `(`, the comma-joined binds and `)`, blanks removed |
| DbParse.TagReadSound | db_parse.py:61-70 | a tag read is well spelled: the sign character is its sign, the name is the text right after it, and whatever follows the name is its parenthesised bind list, blanks removed, or nothing when it has no binds |
| DbParse.LineTagsReadSound | db_parse.py:79-84 | the patterns a line adds are well spelled when its entity word is |
| DbParse.PatternsReadSound | db_parse.py:72-84 | the patterns of a block are well spelled, and the block ends at the end of the text or at a character that is neither alphanumeric nor blank |
| DbParse.DescReadMatches | db_parse.py:97-99 | the description regex matches exactly when some line break can end it; the match ends at the last such line break with no `\n` before it, and the group has no `\n` and no leading blank |
| DbParse.DescReadPlain | db_parse.py:97-99 | a description read has no `\n` and no leading blank |
| DbParse.NameReadSound | db_parse.py:87-93 | a rule name read is a word, and the first non-space character is `#` |
| DbParse.HeadReadSound | db_parse.py:87-99 | a head read has a word for a name and a plain description, and starts with `#` after the spaces |
| DbParse.RuleReadSound | db_parse.py:86-112 | a rule read has a word for a name, a plain description and well-spelled pre and post blocks, and starts with `#` after the spaces |
| DbParse.RulesReadSound | db_parse.py:114-116 | every rule read up to the end of the text is well spelled |
| DbParse.BindsReadBack | db_parse.py:44-59 | a non-empty list of words written `(a,b)` is read back as exactly that list, ending after the `)` |
| DbParse.TagReadBack | db_parse.py:61-70 | a well-spelled tag written as `+name(a,b)` and followed by a newline is read back as that tag, ending right after it |
| DbParse.LineTagsReadBack | db_parse.py:79-84 | a line's one tag after a blank, then its newline, is read as one pattern for the line's entity, and reading stops past the line break |
| DbParse.PatsReadBack | db_parse.py:72-84 | a block of well-spelled patterns written one per line is read back as exactly those patterns, in order |
| DbParse.DescReadBack | db_parse.py:97-99 | a `>` line with a plain description is read back as that description, ending after the newline |
| DbParse.HeadReadBack | db_parse.py:87-99 | a `#` line with a word name and a `>` line with a plain description are read back as that name and description |
| DbParse.RuleReadBack | db_parse.py:86-112 | a printable rule written as head, pre block, `->` and post block is read back as that rule |
| DbParse.RulesReadBack | db_parse.py:114-116 | printable rules written one after another to the end of the text are read back as those rules, in order |
| DbParse.RulesRoundTrip | db_parse.py:114-116 | reading the canonical spelling of printable rules gives back exactly those rules |
| DbParse.PatternsRoundTrip | db_parse.py:72-84 | reading the canonical spelling of well-spelled patterns gives back exactly those patterns, and the text starts with no space |
| DbParse.Parser.constructor | db_parse.py:30-32 | a parser over `text` starts with its cursor at 0 |
| DbParse.Parser.LexLit | db_parse.py:9-15 | returns `lit` and advances by its length exactly when the text continues with `lit`; otherwise `None` with the cursor unchanged, also when `lit` would run past the end |
| DbParse.Parser.ScanRun | db_parse.py:17-27 | the end of the longest run of a character class from a position: what `re.match` of a class followed by `*` or `+` consumes |
| DbParse.Parser.LexWord | db_parse.py:34-35 | succeeds exactly when an alphanumeric comes next (so `-` and `#` fail); consumes the longest run of word characters and returns it as a word; a failure leaves the cursor unchanged |
| DbParse.Parser.LexWs | db_parse.py:41-42 | moves the cursor past the run of spaces and tabs and returns that run, or `None` when it is empty |
| DbParse.Parser.LexLine | db_parse.py:37-39 | the cursor ends past the whole run of `[\r\n \t]`; the call returns the part after the leading blanks, and succeeds exactly when that run holds a line break |
| DbParse.Parser.LexSign | db_parse.py:62-63 | consumes and returns a `+` or `-`, and fails exactly when neither comes next |
| DbParse.Parser.LexTagName | db_parse.py:65-66 | succeeds exactly when an alphanumeric and a word character come next; consumes the longest word run and then one `!` if present; the result is a tag name |
| DbParse.Parser.LexDesc | db_parse.py:97-99 | returns the group of the description match and moves past the match when `DescRead` finds one; otherwise `None` with the cursor unchanged |
| DbParse.Parser.ParseBinds | db_parse.py:44-59 | returns the binds, or the failure, that `BindsRead` gives at the cursor, and leaves the cursor where it ends |
| DbParse.Parser.ParseBindList | db_parse.py:48-59 | the loop after `(` returns the binds `BindListRead` gives and moves the cursor past the `)` |
| DbParse.Parser.LexBind | db_parse.py:51-58 | one round of the bind loop returns the bind, or the failure, that `BindRead` gives, and moves the cursor to its end |
| DbParse.Parser.ParseTag | db_parse.py:61-70 | returns the tag, or the failure, that `TagRead` gives at the cursor, and moves the cursor to its end |
| DbParse.Parser.ParseLineTags | db_parse.py:79-84 | the inner loop returns the line's patterns, or the failure, that `LineTagsRead` gives, and moves the cursor past the line break |
| DbParse.Parser.ParsePatternLine | db_parse.py:73-84 | one round of the outer loop: `None`, past the blanks, when no entity word starts; otherwise the line's result, as `LineTagsRead` gives it after the word |
| DbParse.Parser.ParsePatterns | db_parse.py:72-84 | returns the patterns, or the failure, that `PatternsRead` gives at the cursor, and moves the cursor to the end of the block |
| DbParse.Parser.ParseName | db_parse.py:87-93 | returns the rule name, or the failure, that `NameRead` gives, and moves the cursor past the name |
| DbParse.Parser.ParseHead | db_parse.py:87-101 | returns the name and description, or the failure, that `HeadRead` gives, and moves the cursor past the spaces after the `>` line |
| DbParse.Parser.ParseRuleBody | db_parse.py:102-112 | returns the rule, or the failure, that `RuleBodyRead` gives after the head |
| DbParse.Parser.ParseArrow | db_parse.py:105-112 | returns the rule, or the failure, that `ArrowRead` gives after the pre block |
| DbParse.Parser.ParseRule | db_parse.py:86-112 | returns the rule, or the failure, that `RuleRead` gives at the cursor, and moves the cursor past the spaces after the rule |
| DbParse.Parser.ParseRules | db_parse.py:114-116 | reads rules until the cursor reaches the end: returns what `RulesRead` gives from the cursor |
| DbParse.Parser.ParseEntities | db_parse.py:118-128 | after the leading spaces, the block `PatternsRead` gives is collected into the entity table; its failure is passed on |
| DbParse.PositiveTagsSpelled | db_parse.py:124-126 | the entity names and collected positive tags of well-spelled patterns are words and tag names |
| DbParse.CollectedSpelled | db_parse.py:120-128 | the table collected from well-spelled patterns is well spelled |
| DbParse.CollectEntities | db_parse.py:120-128 | the keys are the distinct entity names, numbered `0..n-1` in insertion order; each name's entry holds its positive tags in text order, and negative tags are dropped |
| DbParse.AddPositive | db_parse.py:124-126 | a positive pattern appends its `(name, binds)` to its own entity's list; a negative one changes nothing; other entries and every index stay as they were |
| DbParse.PositiveTagsStep | db_parse.py:124-126 | one more pattern adds at most its own tag, and only to its own entity |
| DbParse.NumberNames | db_parse.py:121-122 | enumerating a set of names gives each a distinct index `0..n-1`, its position in insertion order, with an empty tag list |
| DbParse.ParseRules | db_parse.py:130-132 | module-level `parse_rules`: the rules `RulesRead` gives from 0, all printable, or a rule error; an empty text gives no rules; the canonical spelling of printable rules gives those rules back |
| DbParse.ParseEntities | db_parse.py:134-136 | module-level `parse_entities`: the table collected from the block read, numbered and well spelled, or a tag error; the canonical spelling of well-spelled patterns gives the table collected from them |
| DbProto.TagMatch | db_proto.py:10-21 | true exactly when some tag of the entity has the pattern tag's name and its ids agree with the bound entities' ids wherever both bind lists have a position |
| DbProto.BindsAgree | db_proto.py:18 | true exactly when the two bind lists agree, position by position, up to the shorter one |
| DbProto.PatternMatch | db_proto.py:23-26 | the pattern holds exactly when a matching tag is present if the sign is `+`, and absent if it is `-` |
| DbProto.BindlessMatchesAnyBinds | db_proto.py:15-21 | a bind-less pattern tag such as `-hold` is satisfied by every tag of its name, whatever its binds |
| DbProto.PatternMatchesLocal | db_proto.py:23-26 | a pattern's outcome depends only on its entity's tags and the ids of the selected entities |
| DbProto.Swizzle | db_proto.py:28-34 | with indices, the k-th selected entity is the pool's entity at the k-th index; without indices, the whole list |
| DbProto.Unswizzle | db_proto.py:36-47 | the copy-and-overwrite loop computes the splice `Unswizzled` |
| DbProto.UnswizzleUntouched | db_proto.py:41-45 | positions no index names keep their elements, and the length is kept |
| DbProto.UnswizzleLastWins | db_proto.py:43-44 | `lst[k]` lands at `idx[k]`, and for a repeated index the last pair wins |
| DbProto.UnswizzleSwizzle | db_proto.py:28-47 | splicing back what was selected gives the original list |
| DbProto.SwizzleUnswizzle | db_proto.py:28-47 | with distinct indices, selecting after a splice gives back what was spliced in |
| DbProto.UnswizzleExact | db_proto.py:41-45 | with distinct indices, the splice is `lst[k]` at each `idx[k]` and the original elsewhere |
| DbProto.GuardAsWritten | db_proto.py:68-69 | the size guard as written compares the swizzle's length with a swizzle, and raises without one |
| DbProto.GuardCrashesWithoutSwizzle | db_proto.py:68-69 | without a swizzle the guard as written raises even for a large enough pool, where the intended guard lets the rule run; with a swizzle the two agree |
| DbProto.Resolve | db_proto.py:79 | a pattern tag with each local bind replaced by the id of the selected entity at that index |
| DbProto.AllMatch | db_proto.py:75 | true exactly when every precondition holds on the selection |
| DbProto.Forward | db_proto.py:59-88 | the corrected guard (see ## Findings), then the selection, the precondition check and the postcondition loop over per-entity tag sets compute `Forwarded`: `IndexError` for too small a selection, `None` when a precondition fails, else the fired entities spliced back |
| DbProto.PostMembership | db_proto.py:78-84 | after the postconditions, a tag is present exactly when it was there and no later removal names it, or some positive postcondition added it and no later removal names it |
| DbProto.PostHolds | db_proto.py:78-88 | every postcondition that is the last about its entity and tag name holds on the fired entities |
| DbProto.ForwardFrame | db_proto.py:78-88 | a successful forward keeps the pool's length, ids and names and the unselected entities; each selected position gets its fired entity, with empty notags |
| DbProto.DiscardAll | db_proto.py:107-112 | the loop over the postconditions takes the positive ones' resolved tags out of the tags and the negative ones' out of the notags |
| DbProto.AddAll | db_proto.py:114-119 | the loop over the preconditions adds the positive ones' resolved tags to the tags and the negative ones' to the notags |
| DbProto.Backward | db_proto.py:90-122 | computes `Regressed`: the corrected guard (see ## Findings) gives `IndexError` for too small a selection; otherwise each selected entity's tags become (old − positive posts) ∪ positive pres, and its notags (old − negative posts) ∪ negative pres, spliced back |
| DbProto.PreHoldsAfterBackward | db_proto.py:114-121 | after backward every positive precondition holds on the regressed entities, and every negative one is recorded in its entity's notags |
| DbProto.BackwardFrame | db_proto.py:102-122 | backward keeps the pool's length, ids and names and the unselected entities; each selected position gets its regressed entity |
| DbProto.SpliceFrame | db_proto.py:87 | splicing the processed selection back leaves unselected positions alone and puts at each selected one the entity its last selection became |
| DbProto.ForwardAfterBackward | db_proto.py:59-122 | forward right after backward, on the same distinct swizzle, never raises, and succeeds exactly when no negative precondition is contradicted by a tag the regressed entities still have |
| DbProto.IndexOf | db_proto.py:173-174 | `names.index(x)` is the first position holding `x` |
| DbProto.Dedup | db_proto.py:169 | `OrderedDict.fromkeys` keeps each name once and loses none |
| DbProto.DedupFirstSeen | db_proto.py:169 | and keeps the names in the order in which they first appear |
| DbProto.CreatePattern | db_proto.py:171-174 | the created pattern's indices are below `len(names)`, and each names exactly the name it came from |
| DbProto.SpelledInjective | db_proto.py:171-174 | over distinct names, a pattern is determined by the names its indices stand for |
| DbProto.CreatePatterns | db_proto.py:176 | each created pattern spells back as its parsed pattern |
| DbProto.RuleNamesCover | db_proto.py:169-176 | when every bind names a rule entity, the rule's names cover every entity and bind of its patterns |
| DbProto.CreateRule | db_proto.py:168-177 | the name and description are kept; `names` holds the distinct entity names of pre and post, in first-appearance order; the rule is well formed and every pattern spells back as its parsed one |
| DbProto.CreateRuleWritten | db_proto.py:168-177 | spelling a created rule back with its names gives exactly the parsed rule |
| DbProto.ResolvedTagsSpelled | db_proto.py:189 | read back through the table's order, the resolved tags are exactly the tags written |
| DbProto.CreateEntity | db_proto.py:188-190 | the entity has the given index as id, the given name and no notags; its tags are the written tags with bind names replaced by entity indices, and nothing else |
| DbProto.LoadEntities | db_proto.py:192-193 | the entities in the table's order have ids equal to their positions; each tag's bound ids are pool positions and every tag spells back as one written for that entity |
| DbProto.FirstUnknown | db_proto.py:173 | finds none exactly when every name is known; otherwise an unknown name of the list |
| DbProto.FirstUnknownIn | db_proto.py:173 | finds none exactly when every bind is a known name; otherwise a bind that is unknown |
| DbProto.FirstUnknownEntry | db_proto.py:189 | finds none exactly when every bind of every entry is a key; otherwise a bind that is not a key |
| DbProto.MissingBind | db_proto.py:171-176 | the `names.index` lookup that raises first, in pre-then-post order: finds none exactly when every bind names an entity of the rule; otherwise a bind that is no entity of the rule but is a bind of one of its patterns |
| DbProto.FirstMissing | db_proto.py:179 | finds none exactly when every parsed rule has its binds named; otherwise the missing bind of the first rule that has one, every rule before it being fine |
| DbProto.CreateRules | db_proto.py:179 | `[create_rule(*r) for r in rules]`: succeeds exactly when every parsed rule has its binds named, and then holds `CreateRule` of each parsed rule at its position; otherwise the `ValueError` of the missing bind of the first rule that has one |
| DbProto.CreatedWritten | db_proto.py:168-179 | rules created one for one from parsed rules are well formed, have distinct names and spell back as the parsed rules |
| DbProto.ParseRules | db_proto.py:158-179 | a parse error of the rules read from 0 is passed on; otherwise, when every read rule has its binds named, the result holds `CreateRule` of each read rule at its position, and else it is the `ValueError` of the missing bind of the first rule that has one; every created rule is well formed, with distinct names, and spells back as a well-spelled parsed rule; an empty text gives no rules; on the canonical spelling of printable rules it succeeds exactly when their binds are named, giving rules that spell back as them |
| DbParse.PositiveTagsFrom | db_parse.py:124-126 | every tag collected for an entity is the tag of a positive pattern of that entity, and every such tag is collected |
| DbProto.CollectedBindsKnown | db_proto.py:188-193 | on the table collected from a block, every bind of every entry is a key exactly when every bind of a positive pattern names an entity of the block; any bind an entry holds is a bind of a positive pattern |
| DbProto.MissingEntityBind | db_proto.py:189 | the bind whose `ents[b]` raises first names no entity of the block, is a bind of a positive pattern, and so not every positive bind is known |
| DbProto.LoadedSpelled | db_proto.py:192-193 | entities loaded from a numbered, well-spelled table have ids equal to their positions, no notags, distinct word names, and tags with tag names bound to pool positions |
| DbProto.CreateEntities | db_proto.py:192-193 | on the table collected from a block: when every positive bind names an entity, the entities `LoadEntities` gives; otherwise the `KeyError` of a positive bind that names no entity |
| DbProto.ParseEntities | db_proto.py:181-193 | a parse error of the block read after the leading spaces is passed on; otherwise, when every positive bind names an entity, the entities `LoadEntities` gives for a table collected from that block, and else the `KeyError` of a positive bind naming no entity; each entity's id is its position, with a word name and no notags; names are distinct; every tag has a tag name and binds that are pool positions; on the canonical spelling of well-spelled patterns it succeeds exactly when every positive bind names an entity |
| DbProtoExample.WeaponHitCreated | db_proto_test.py:3-9 | `create_rule` turns the parsed weapon-hit record into the rule with names dwarf, weapon, thing |
| DbProtoExample.PickUpCreated | db_proto_test.py:11-16 | `create_rule` turns the parsed pick-up record into the rule with names dwarf, thing |
| DbProtoExample.DropCreated | db_proto_test.py:18-23 | `create_rule` turns the parsed drop record into the rule with names dwarf, thing |
| DbProtoExample.BackWeaponHit | db_proto_test.py:29 | weapon-hit regressed on `[0, 1, 2]` of four bare entities gives the dwarf `dwarf` and `hold(1)`, and the weapon `weapon` |
| DbProtoExample.BackPickUp | db_proto_test.py:30 | pick-up regressed on `[0, 1]` takes `hold(1)` away, records `hold` as a notag and makes entity 1 holdable |
| DbProtoExample.BackDrop | db_proto_test.py:31 | drop regressed on `[0, 3]` clears the notag, gives the dwarf `hold(3)` and makes entity 3 holdable |
| DbProtoExample.ForwardDrop | db_proto_test.py:33 | drop forwards on `[0, 3]` succeeds and removes the dwarf's `hold` |
| DbProtoExample.ForwardPickUp | db_proto_test.py:34 | pick-up forwards on `[0, 1]` succeeds and gives the dwarf `hold(1)` |
| DbProtoExample.ForwardWeaponHit | db_proto_test.py:35 | weapon-hit forwards on `[0, 1, 2]` succeeds and hurts entity 2 |
| DbProtoExample.Chain | db_proto_test.py:26-35 | the whole chain: three backward steps, then three forward steps in the opposite order, each succeeding, ending with `hurt!` on entity 2 |

## Left out

- `format_desc`, `format_rule` and `format_entities` (db_proto.py:124-213) are pretty-printers over `str.format`, so they are not modelled. `Spelled`, `Written` and `SpelledTag` are the name-for-index reading that they print.
- The demo script's `print` calls and its parse of the rule text are left out. The example starts from the parsed records of its three rules.
- A general regular-expression engine is left out. `lex_regex` and `lex_re` are modelled through the one scanner for each pattern the parser uses. The match object of `lex_regex` is only used for the description group, which `LexDesc` returns.
- Generator laziness is left out. `parse_binds`, `parse_patterns` and `parse_rules` are consumed at once by `tuple` or `list`, so they return sequences. An exception ends the parse at the same point either way.
- Exception types are not modelled. An `AssertionError`, `ValueError`, `KeyError`, `IndexError` or `UnboundLocalError` is a `Fail` with the exception's message. Python's repr of a bind name is written as the name in single quotes, which is what repr gives for a word.
- The order of the tuples built from sets is left out (tags in `forward`/`backward`, the iteration in `tag_match`). Tags and notags are sets, and `tag_match`'s answer does not depend on that order.
- The numbering order of `parse_entities` is left out, because `enumerate` runs over a set. `NumberNames` picks any order. The `items()` order of the table is taken to be insertion order, as in Python 3.7 and later. Python 2 leaves it unspecified, and there an entity's list position need not equal its id.
- Out-of-range swizzle indices, and negative ones that Python would wrap, are excluded by `InBounds`. Forward and Backward require a well-formed rule, one whose pattern indices are below `num`. `CreateRule` is proved to give only such rules.
- Unknown bind names are preconditions of `CreateRule`, `CreatePattern` and `CreateEntity`. The text-level `DbProto.ParseRules` and `DbProto.ParseEntities` check them first and fail with the source's error message.
- DbProto.ParseEntities: the `KeyError` names some positive bind that names no entity. The code reports the first such bind in the table's `items()` order, and that order depends on the unspecified numbering, so the contract does not say which one.
- The assertion `assert tag, "Expected tag"` (db_parse.py:82) can never fail, because `parse_tag` returns a tuple or raises. The model has no such failure.

## Findings

| source | as written | input that shows it | evidently intended | confidence | as-written member | corrected member |
|---|---|---|---|---|---|---|
| db_proto.py:68 (and :99) | `len(swizzle) < self.num if swizzle else len(entities) < self.num` reads the local `entities` before it is assigned, so `forward` and `backward` raise `UnboundLocalError` whenever the swizzle is `None` or empty | `rule.forward(pool)` for any rule and a pool with at least `num` entities | without a swizzle, compare the pool's length: `len(entity_list) < self.num` | not executed | DbProto.GuardAsWritten, DbProto.GuardCrashesWithoutSwizzle | DbProto.NotEnough, used by DbProto.Forward and DbProto.Backward |

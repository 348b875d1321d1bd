/**
  The chain of the repository's demo script, worked through the model:
  four anonymous entities are regressed by weapon-hit on `[0, 1, 2]`,
  pick-up on `[0, 1]` and drop on `[0, 3]`, and the rules are then
  replayed forwards in the opposite order, each step succeeding.
 */
module DbProtoExample {
  import opened Wrappers
  import opened DbProto
  import DbParse

  // ---------------------------------------------------------------- the rules

  function WeaponHit(): Rule {
    Rule("weapon-hit", "{dwarf} hits {thing} with {weapon}", ["dwarf", "weapon", "thing"],
      [Pattern(true, 0, Tag("dwarf", [])), Pattern(true, 0, Tag("hold", [1])), Pattern(true, 1, Tag("weapon", []))],
      [Pattern(true, 2, Tag("hurt!", []))])
  }

  function PickUp(): Rule {
    Rule("pick-up", "{dwarf} picks up {thing}", ["dwarf", "thing"],
      [Pattern(true, 0, Tag("dwarf", [])), Pattern(false, 0, Tag("hold", [])), Pattern(true, 1, Tag("holdable", []))],
      [Pattern(true, 0, Tag("hold", [1]))])
  }

  function Drop(): Rule {
    Rule("drop", "{dwarf} drops {thing}", ["dwarf", "thing"],
      [Pattern(true, 0, Tag("dwarf", [])), Pattern(true, 0, Tag("hold", [1])), Pattern(true, 1, Tag("holdable", []))],
      [Pattern(false, 0, Tag("hold", []))])
  }

  function P(entity: string, sign: bool, name: string, binds: seq<string>): DbParse.ParsedPattern {
    DbParse.ParsedPattern(entity, DbParse.ParsedTag(sign, name, binds))
  }

  /** The three rules as the parser reads them from the script's text. */
  function ParsedRules(): seq<DbParse.ParsedRule> {
    [DbParse.ParsedRule("weapon-hit", "{dwarf} hits {thing} with {weapon}",
       [P("dwarf", true, "dwarf", []), P("dwarf", true, "hold", ["weapon"]), P("weapon", true, "weapon", [])],
       [P("thing", true, "hurt!", [])]),
     DbParse.ParsedRule("pick-up", "{dwarf} picks up {thing}",
       [P("dwarf", true, "dwarf", []), P("dwarf", false, "hold", []), P("thing", true, "holdable", [])],
       [P("dwarf", true, "hold", ["thing"])]),
     DbParse.ParsedRule("drop", "{dwarf} drops {thing}",
       [P("dwarf", true, "dwarf", []), P("dwarf", true, "hold", ["thing"]), P("thing", true, "holdable", [])],
       [P("dwarf", false, "hold", [])])]
  }

  /** A bind-less pattern spells as its entity's name and its tag. */
  lemma SpelledBare(names: seq<string>, p: Pattern)
    requires p.entity < |names| && p.tag.binds == []
    ensures Spelled(names, p) == P(names[p.entity], p.sign, p.tag.tag, [])
  {
  }

  /** A pattern with one bind spells that bind by its name. */
  lemma SpelledOne(names: seq<string>, p: Pattern)
    requires p.entity < |names| && |p.tag.binds| == 1 && p.tag.binds[0] < |names|
    ensures Spelled(names, p) == P(names[p.entity], p.sign, p.tag.tag, [names[p.tag.binds[0]]])
  {
    assert Spelled(names, p).tag.binds == [names[p.tag.binds[0]]];
  }

  /**
    `OrderedDict.fromkeys` over four names, one at a time: the
    duplicate-free prefix grows by a name only where the name is new.
   */
  lemma DedupFour(s: seq<string>, d1: seq<string>, d2: seq<string>, d3: seq<string>, d4: seq<string>)
    requires |s| == 4
    requires d1 == [s[0]]
    requires d2 == if s[1] in d1 then d1 else d1 + [s[1]]
    requires d3 == if s[2] in d2 then d2 else d2 + [s[2]]
    requires d4 == if s[3] in d3 then d3 else d3 + [s[3]]
    ensures Dedup(s) == d4
  {
    var s1, s2, s3 := s[..1], s[..2], s[..3];
    assert s1[..0] == [];
    assert Dedup(s1) == d1;
    assert s2[..1] == s1;
    assert Dedup(s2) == d2;
    assert s3[..2] == s2;
    assert Dedup(s3) == d3;
    assert s[..3] == s3;
  }

  /** weapon-hit's entities in order of first appearance: dwarf and weapon from its pre block, thing from its post block. */
  lemma WeaponHitNames()
    ensures Dedup(Subjects(ParsedRules()[0].pre + ParsedRules()[0].post)) == WeaponHit().names
    ensures BindsNamed(ParsedRules()[0])
  {
    var r := ParsedRules()[0];
    var s := Subjects(r.pre + r.post);
    assert s == ["dwarf", "dwarf", "weapon", "thing"];
    DedupFour(s, ["dwarf"], ["dwarf"], ["dwarf", "weapon"], ["dwarf", "weapon", "thing"]);
  }

  lemma WeaponHitWritten()
    ensures WellFormed(WeaponHit()) && Written(WeaponHit()) == ParsedRules()[0]
  {
    var rule, r := WeaponHit(), ParsedRules()[0];
    SpelledBare(rule.names, rule.pre[0]);
    SpelledOne(rule.names, rule.pre[1]);
    SpelledBare(rule.names, rule.pre[2]);
    SpelledBare(rule.names, rule.post[0]);
    assert Written(rule).pre == r.pre;
    assert Written(rule).post == r.post;
  }

  lemma WeaponHitCreated()
    ensures BindsNamed(ParsedRules()[0]) && CreateRule(ParsedRules()[0]) == WeaponHit()
  {
    WeaponHitNames();
    WeaponHitWritten();
    CreatedAs(ParsedRules()[0], WeaponHit());
  }

  /** pick-up names the dwarf and then the thing. */
  lemma PickUpNames()
    ensures Dedup(Subjects(ParsedRules()[1].pre + ParsedRules()[1].post)) == PickUp().names
    ensures BindsNamed(ParsedRules()[1])
  {
    var r := ParsedRules()[1];
    var s := Subjects(r.pre + r.post);
    assert s == ["dwarf", "dwarf", "thing", "dwarf"];
    DedupFour(s, ["dwarf"], ["dwarf"], ["dwarf", "thing"], ["dwarf", "thing"]);
  }

  lemma PickUpWritten()
    ensures WellFormed(PickUp()) && Written(PickUp()) == ParsedRules()[1]
  {
    var rule, r := PickUp(), ParsedRules()[1];
    SpelledBare(rule.names, rule.pre[0]);
    SpelledBare(rule.names, rule.pre[1]);
    SpelledBare(rule.names, rule.pre[2]);
    SpelledOne(rule.names, rule.post[0]);
    assert Written(rule).pre == r.pre;
    assert Written(rule).post == r.post;
  }

  lemma PickUpCreated()
    ensures BindsNamed(ParsedRules()[1]) && CreateRule(ParsedRules()[1]) == PickUp()
  {
    PickUpNames();
    PickUpWritten();
    CreatedAs(ParsedRules()[1], PickUp());
  }

  /** drop names the dwarf and then the thing. */
  lemma DropNames()
    ensures Dedup(Subjects(ParsedRules()[2].pre + ParsedRules()[2].post)) == Drop().names
    ensures BindsNamed(ParsedRules()[2])
  {
    var r := ParsedRules()[2];
    var s := Subjects(r.pre + r.post);
    assert s == ["dwarf", "dwarf", "thing", "dwarf"];
    DedupFour(s, ["dwarf"], ["dwarf"], ["dwarf", "thing"], ["dwarf", "thing"]);
  }

  lemma DropWritten()
    ensures WellFormed(Drop()) && Written(Drop()) == ParsedRules()[2]
  {
    var rule, r := Drop(), ParsedRules()[2];
    SpelledBare(rule.names, rule.pre[0]);
    SpelledOne(rule.names, rule.pre[1]);
    SpelledBare(rule.names, rule.pre[2]);
    SpelledBare(rule.names, rule.post[0]);
    assert Written(rule).pre == r.pre;
    assert Written(rule).post == r.post;
  }

  lemma DropCreated()
    ensures BindsNamed(ParsedRules()[2]) && CreateRule(ParsedRules()[2]) == Drop()
  {
    DropNames();
    DropWritten();
    CreatedAs(ParsedRules()[2], Drop());
  }

  /** Over distinct names, pattern lists that spell alike are equal. */
  lemma SameSpelling(names: seq<string>, a: seq<Pattern>, b: seq<Pattern>)
    requires Distinct(names) && |a| == |b| && PatternsFit(a, |names|) && PatternsFit(b, |names|)
    requires forall k :: 0 <= k < |a| ==> Spelled(names, a[k]) == Spelled(names, b[k])
    ensures a == b
  {
    forall k | 0 <= k < |a| ensures a[k] == b[k] {
      SpelledInjective(names, a[k], b[k]);
    }
  }

  /** A well-formed rule whose names are those of `r` and that spells back as `r` is the rule `create_rule` makes of `r`. */
  lemma CreatedAs(r: DbParse.ParsedRule, rule: Rule)
    requires BindsNamed(r) && WellFormed(rule) && Written(rule) == r
    requires rule.names == Dedup(Subjects(r.pre + r.post))
    ensures CreateRule(r) == rule
  {
    RuleNamesCover(r);
    assert forall k :: 0 <= k < |r.pre| ==> Spelled(rule.names, rule.pre[k]) == Written(rule).pre[k];
    assert forall k :: 0 <= k < |r.post| ==> Spelled(rule.names, rule.post[k]) == Written(rule).post[k];
    PatternsCreated(rule.names, r.pre, rule.pre);
    PatternsCreated(rule.names, r.post, rule.post);
  }

  /** Patterns that spell as the parsed ones are what `create_pattern` makes of them. */
  lemma PatternsCreated(names: seq<string>, parsed: seq<DbParse.ParsedPattern>, pats: seq<Pattern>)
    requires Distinct(names) && |pats| == |parsed| && PatternsFit(pats, |names|)
    requires forall k :: 0 <= k < |parsed| ==> Named(names, parsed[k])
    requires forall k :: 0 <= k < |parsed| ==> Spelled(names, pats[k]) == parsed[k]
    ensures CreatePatterns(names, parsed) == pats
  {
    SameSpelling(names, CreatePatterns(names, parsed), pats);
  }

  // ---------------------------------------------------------------- the states

  function Start(): seq<Entity> {
    [Entity(0, "e_0", {}, {}), Entity(1, "e_1", {}, {}), Entity(2, "e_2", {}, {}), Entity(3, "e_3", {}, {})]
  }

  /** After regressing weapon-hit on `[0, 1, 2]`. */
  function Back1(): seq<Entity> {
    [Entity(0, "e_0", {Tag("dwarf", []), Tag("hold", [1])}, {}), Entity(1, "e_1", {Tag("weapon", [])}, {}),
     Entity(2, "e_2", {}, {}), Entity(3, "e_3", {}, {})]
  }

  /** After regressing pick-up on `[0, 1]`. */
  function Back2(): seq<Entity> {
    [Entity(0, "e_0", {Tag("dwarf", [])}, {Tag("hold", [])}), Entity(1, "e_1", {Tag("weapon", []), Tag("holdable", [])}, {}),
     Entity(2, "e_2", {}, {}), Entity(3, "e_3", {}, {})]
  }

  /** After regressing drop on `[0, 3]`: the state the replay starts from. */
  function Back3(): seq<Entity> {
    [Entity(0, "e_0", {Tag("dwarf", []), Tag("hold", [3])}, {}), Entity(1, "e_1", {Tag("weapon", []), Tag("holdable", [])}, {}),
     Entity(2, "e_2", {}, {}), Entity(3, "e_3", {Tag("holdable", [])}, {})]
  }

  /** After replaying drop on `[0, 3]`. */
  function Fwd1(): seq<Entity> {
    [Entity(0, "e_0", {Tag("dwarf", [])}, {}), Entity(1, "e_1", {Tag("weapon", []), Tag("holdable", [])}, {}),
     Entity(2, "e_2", {}, {}), Entity(3, "e_3", {Tag("holdable", [])}, {})]
  }

  /** After replaying pick-up on `[0, 1]`. */
  function Fwd2(): seq<Entity> {
    [Entity(0, "e_0", {Tag("dwarf", []), Tag("hold", [1])}, {}), Entity(1, "e_1", {Tag("weapon", []), Tag("holdable", [])}, {}),
     Entity(2, "e_2", {}, {}), Entity(3, "e_3", {Tag("holdable", [])}, {})]
  }

  /** After replaying weapon-hit on `[0, 1, 2]`: the thing is hurt. */
  function Fwd3(): seq<Entity> {
    [Entity(0, "e_0", {Tag("dwarf", []), Tag("hold", [1])}, {}), Entity(1, "e_1", {Tag("weapon", []), Tag("holdable", [])}, {}),
     Entity(2, "e_2", {Tag("hurt!", [])}, {}), Entity(3, "e_3", {Tag("holdable", [])}, {})]
  }

  // ---------------------------------------------------------------- helpers

  predicate Hits(p: Pattern, j: nat, sign: bool) {
    p.entity == j && p.sign == sign
  }

  lemma ResolvedNone(pats: seq<Pattern>, j: nat, sign: bool, es: seq<Entity>)
    requires PatternsFit(pats, |es|)
    requires forall k :: 0 <= k < |pats| ==> !Hits(pats[k], j, sign)
    ensures Resolved(pats, j, sign, es) == {}
  {
  }

  lemma ResolvedOne(pats: seq<Pattern>, j: nat, sign: bool, es: seq<Entity>, a: nat)
    requires PatternsFit(pats, |es|) && a < |pats| && Hits(pats[a], j, sign)
    requires forall k :: 0 <= k < |pats| && k != a ==> !Hits(pats[k], j, sign)
    ensures Resolved(pats, j, sign, es) == {Resolve(pats[a].tag, es)}
  {
  }

  lemma ResolvedTwo(pats: seq<Pattern>, j: nat, sign: bool, es: seq<Entity>, a: nat, b: nat)
    requires PatternsFit(pats, |es|) && a < |pats| && b < |pats| && Hits(pats[a], j, sign) && Hits(pats[b], j, sign)
    requires forall k :: 0 <= k < |pats| && k != a && k != b ==> !Hits(pats[k], j, sign)
    ensures Resolved(pats, j, sign, es) == {Resolve(pats[a].tag, es), Resolve(pats[b].tag, es)}
  {
    assert Resolve(pats[a].tag, es) in Resolved(pats, j, sign, es);
    assert Resolve(pats[b].tag, es) in Resolved(pats, j, sign, es);
  }

  /** A tag without binds resolves to itself. */
  lemma ResolveBare(name: string, es: seq<Entity>)
    ensures Resolve(Tag(name, []), es) == Tag(name, [])
  {
  }

  /** A tag bound to local entity 1 resolves to that entity's id. */
  lemma ResolveSecond(name: string, es: seq<Entity>)
    requires 2 <= |es|
    ensures Resolve(Tag(name, [1]), es) == Tag(name, [es[1].id])
  {
    assert Resolve(Tag(name, [1]), es).binds == [es[1].id];
  }

  // ---------------------------------------------------------------- backward, step by step

  lemma RegressWeaponHit()
    ensures Regress(WeaponHit(), Start()[..3]) == Back1()[..3]
  {
    var rule, es := WeaponHit(), Start()[..3];
    ResolveBare("dwarf", es);
    ResolveSecond("hold", es);
    ResolveBare("weapon", es);
    ResolvedTwo(rule.pre, 0, true, es, 0, 1);
    ResolvedOne(rule.pre, 1, true, es, 2);
    var r := Regress(rule, es);
    assert r[0] == Back1()[0];
    assert r[1] == Back1()[1];
    assert r[2] == Back1()[2];
  }

  lemma BackWeaponHit()
    ensures Regressed(WeaponHit(), Start(), [0, 1, 2]) == Ok(Back1())
  {
    assert Swizzle(Start(), [0, 1, 2]) == Start()[..3];
    RegressWeaponHit();
    UnswizzleExact(Start(), Back1()[..3], [0, 1, 2], Back1());
  }

  lemma RegressPickUp()
    ensures Regress(PickUp(), Back1()[..2]) == Back2()[..2]
  {
    var rule, es := PickUp(), Back1()[..2];
    ResolveBare("dwarf", es);
    ResolveBare("hold", es);
    ResolveSecond("hold", es);
    ResolveBare("holdable", es);
    ResolvedOne(rule.post, 0, true, es, 0);
    ResolvedOne(rule.pre, 0, true, es, 0);
    ResolvedOne(rule.pre, 0, false, es, 1);
    ResolvedOne(rule.pre, 1, true, es, 2);
    var r := Regress(rule, es);
    assert r[0] == Back2()[0];
    assert r[1] == Back2()[1];
  }

  lemma BackPickUp()
    ensures Regressed(PickUp(), Back1(), [0, 1]) == Ok(Back2())
  {
    assert Swizzle(Back1(), [0, 1]) == Back1()[..2];
    RegressPickUp();
    UnswizzleExact(Back1(), Back2()[..2], [0, 1], Back2());
  }

  lemma RegressDrop()
    ensures Regress(Drop(), [Back2()[0], Back2()[3]]) == [Back3()[0], Back3()[3]]
  {
    var rule, es := Drop(), [Back2()[0], Back2()[3]];
    ResolveBare("dwarf", es);
    ResolveBare("hold", es);
    ResolveSecond("hold", es);
    ResolveBare("holdable", es);
    ResolvedOne(rule.post, 0, false, es, 0);
    ResolvedTwo(rule.pre, 0, true, es, 0, 1);
    ResolvedOne(rule.pre, 1, true, es, 2);
    var r := Regress(rule, es);
    assert r[0] == Back3()[0];
    assert r[1] == Back3()[3];
  }

  lemma BackDrop()
    ensures Regressed(Drop(), Back2(), [0, 3]) == Ok(Back3())
  {
    assert Swizzle(Back2(), [0, 3]) == [Back2()[0], Back2()[3]];
    RegressDrop();
    UnswizzleExact(Back2(), [Back3()[0], Back3()[3]], [0, 3], Back3());
  }

  // ---------------------------------------------------------------- forward, step by step

  lemma FireDrop()
    ensures Applicable(Drop(), [Back3()[0], Back3()[3]])
    ensures Fired(Drop(), [Back3()[0], Back3()[3]]) == [Fwd1()[0], Fwd1()[3]]
  {
    var rule, es := Drop(), [Back3()[0], Back3()[3]];
    assert Agrees(Tag("dwarf", []), rule.pre[0].tag, es);
    assert Agrees(Tag("hold", [3]), rule.pre[1].tag, es);
    assert Agrees(Tag("holdable", []), rule.pre[2].tag, es);
    var r := Fired(rule, es);
    assert rule.post[..0] == [];
    assert es[0].tags - (set t | t in es[0].tags && t.tag == "hold") == {Tag("dwarf", [])};
    assert r[0] == Fwd1()[0];
    assert r[1] == Fwd1()[3];
  }

  lemma ForwardDrop()
    ensures Forwarded(Drop(), Back3(), [0, 3]) == Ok(Some(Fwd1()))
  {
    assert Swizzle(Back3(), [0, 3]) == [Back3()[0], Back3()[3]];
    FireDrop();
    UnswizzleExact(Back3(), [Fwd1()[0], Fwd1()[3]], [0, 3], Fwd1());
  }

  lemma FirePickUp()
    ensures Applicable(PickUp(), Fwd1()[..2])
    ensures Fired(PickUp(), Fwd1()[..2]) == Fwd2()[..2]
  {
    var rule, es := PickUp(), Fwd1()[..2];
    assert Agrees(Tag("dwarf", []), rule.pre[0].tag, es);
    assert !TagMatches(es[0], rule.pre[1].tag, es);
    assert Agrees(Tag("holdable", []), rule.pre[2].tag, es);
    var r := Fired(rule, es);
    assert rule.post[..0] == [];
    ResolveSecond("hold", es);
    assert r[0] == Fwd2()[0];
    assert r[1] == Fwd2()[1];
  }

  lemma ForwardPickUp()
    ensures Forwarded(PickUp(), Fwd1(), [0, 1]) == Ok(Some(Fwd2()))
  {
    assert Swizzle(Fwd1(), [0, 1]) == Fwd1()[..2];
    FirePickUp();
    UnswizzleExact(Fwd1(), Fwd2()[..2], [0, 1], Fwd2());
  }

  lemma FireWeaponHit()
    ensures Applicable(WeaponHit(), Fwd2()[..3])
    ensures Fired(WeaponHit(), Fwd2()[..3]) == Fwd3()[..3]
  {
    var rule, es := WeaponHit(), Fwd2()[..3];
    assert Agrees(Tag("dwarf", []), rule.pre[0].tag, es);
    assert Agrees(Tag("hold", [1]), rule.pre[1].tag, es);
    assert Agrees(Tag("weapon", []), rule.pre[2].tag, es);
    var r := Fired(rule, es);
    assert rule.post[..0] == [];
    ResolveBare("hurt!", es);
    assert r[0] == Fwd3()[0];
    assert r[1] == Fwd3()[1];
    assert r[2] == Fwd3()[2];
  }

  lemma ForwardWeaponHit()
    ensures Forwarded(WeaponHit(), Fwd2(), [0, 1, 2]) == Ok(Some(Fwd3()))
  {
    assert Swizzle(Fwd2(), [0, 1, 2]) == Fwd2()[..3];
    FireWeaponHit();
    UnswizzleExact(Fwd2(), Fwd3()[..3], [0, 1, 2], Fwd3());
  }

  /**
    The whole chain: regressing the three rules from four bare entities
    gives a state from which replaying them forwards, in the opposite
    order, succeeds at every step and ends with the thing hurt.
   */
  lemma Chain()
    ensures Regressed(WeaponHit(), Start(), [0, 1, 2]) == Ok(Back1())
    ensures Regressed(PickUp(), Back1(), [0, 1]) == Ok(Back2())
    ensures Regressed(Drop(), Back2(), [0, 3]) == Ok(Back3())
    ensures Forwarded(Drop(), Back3(), [0, 3]) == Ok(Some(Fwd1()))
    ensures Forwarded(PickUp(), Fwd1(), [0, 1]) == Ok(Some(Fwd2()))
    ensures Forwarded(WeaponHit(), Fwd2(), [0, 1, 2]) == Ok(Some(Fwd3()))
    ensures Tag("hurt!", []) in Fwd3()[2].tags
  {
    BackWeaponHit();
    BackPickUp();
    BackDrop();
    ForwardDrop();
    ForwardPickUp();
    ForwardWeaponHit();
  }
}

/**
  The rule engine: entities carry sets of tags, a rule names its entities
  by local index, and applying a rule forwards checks its preconditions
  and applies its postconditions, while applying it backwards regresses a
  state to one the preconditions describe.  A rule works on a selection
  of entities picked out of a pool by a swizzle of pool indices; the
  results are spliced back into the pool.
 */
module DbProto {
  import opened Wrappers
  import DbParse
  import opened Text

  /** `Tag(tag, binds)`: a tag name and the ids of the entities it is bound to. */
  datatype Tag = Tag(tag: string, binds: seq<nat>)

  /** `Entity(id, name, tags, notags)`; the source's tuples of tags are read as sets. */
  datatype Entity = Entity(id: nat, name: string, tags: set<Tag>, notags: set<Tag>)

  /**
    `Pattern(sign, entity, tag)` of a rule: `entity` is a local entity
    index and the binds of `tag` are local entity indices too.
   */
  datatype Pattern = Pattern(sign: bool, entity: nat, tag: Tag)

  /** A rule as `Rule(name, desc, names, pre, post)` builds it; `num` is `Num()`. */
  datatype Rule = Rule(name: string, desc: string, names: seq<string>, pre: seq<Pattern>, post: seq<Pattern>)
  {
    /** `self.num = len(names)` */
    function Num(): nat {
      |names|
    }
  }

  /** A pattern whose entity and binds are local indices below `n`. */
  predicate PatternFits(p: Pattern, n: nat) {
    p.entity < n && forall k :: 0 <= k < |p.tag.binds| ==> p.tag.binds[k] < n
  }

  predicate PatternsFit(ps: seq<Pattern>, n: nat) {
    forall k :: 0 <= k < |ps| ==> PatternFits(ps[k], n)
  }

  /** Every pattern entity index and bind index of the rule names one of its entities. */
  predicate WellFormed(rule: Rule) {
    PatternsFit(rule.pre, rule.Num()) && PatternsFit(rule.post, rule.Num())
  }

  /** Every index of a swizzle selects an entity of a pool of `n`. */
  predicate InBounds(idx: seq<nat>, n: nat) {
    forall k :: 0 <= k < |idx| ==> idx[k] < n
  }

  predicate Distinct<T(==)>(s: seq<T>) {
    forall a, b :: 0 <= a < b < |s| ==> s[a] != s[b]
  }

  // ---------------------------------------------------------------- matching

  /**
    Tag `t` of an entity satisfies pattern tag `tag` over the local
    entities `es`: same name, and wherever both have a bind, the bound
    local entity has the id the tag records.  Positions past the shorter
    bind list are ignored.
   */
  predicate Agrees(t: Tag, tag: Tag, es: seq<Entity>)
    requires forall k :: 0 <= k < |tag.binds| ==> tag.binds[k] < |es|
  {
    && t.tag == tag.tag
    && forall k :: 0 <= k < |t.binds| && k < |tag.binds| ==> es[tag.binds[k]].id == t.binds[k]
  }

  /** Some tag of `e` satisfies `tag`. */
  predicate TagMatches(e: Entity, tag: Tag, es: seq<Entity>)
    requires forall k :: 0 <= k < |tag.binds| ==> tag.binds[k] < |es|
  {
    exists t :: t in e.tags && Agrees(t, tag, es)
  }

  /** `tag_match`: looks through the tags of `e`, returning as soon as one satisfies `tag`. */
  method TagMatch(e: Entity, tag: Tag, es: seq<Entity>) returns (found: bool)
    requires forall k :: 0 <= k < |tag.binds| ==> tag.binds[k] < |es|
    ensures found == TagMatches(e, tag, es)
  {
    var rest := e.tags;
    while rest != {}
      invariant rest <= e.tags
      invariant forall t :: t in e.tags && t !in rest ==> !Agrees(t, tag, es)
      decreases rest
    {
      var t :| t in rest;
      if t.tag == tag.tag {
        var agree := BindsAgree(t.binds, tag.binds, es);
        if agree {
          assert Agrees(t, tag, es);
          return true;
        }
      }
      rest := rest - {t};
    }
    return false;
  }

  /**
    `not any(entities[bp].id != bt for bt, bp in zip(t.binds, tag.binds))`:
    walks the two bind lists side by side, stopping at the first mismatch.
   */
  method BindsAgree(ids: seq<nat>, locals: seq<nat>, es: seq<Entity>) returns (agree: bool)
    requires forall k :: 0 <= k < |locals| ==> locals[k] < |es|
    ensures agree <==> forall k :: 0 <= k < |ids| && k < |locals| ==> es[locals[k]].id == ids[k]
  {
    var k := 0;
    while k < |ids| && k < |locals|
      invariant 0 <= k <= |ids| && k <= |locals|
      invariant forall i :: 0 <= i < k ==> es[locals[i]].id == ids[i]
    {
      if es[locals[k]].id != ids[k] {
        return false;
      }
      k := k + 1;
    }
    return true;
  }

  /** `pattern_match`: the pattern holds when a matching tag is present exactly when its sign is `+`. */
  predicate PatternMatches(p: Pattern, es: seq<Entity>)
    requires PatternFits(p, |es|)
  {
    TagMatches(es[p.entity], p.tag, es) == p.sign
  }

  /** `pattern_match` on the matching loop. */
  method PatternMatch(p: Pattern, es: seq<Entity>) returns (holds: bool)
    requires PatternFits(p, |es|)
    ensures holds == PatternMatches(p, es)
  {
    var found := TagMatch(es[p.entity], p.tag, es);
    holds := found == p.sign;
  }

  /** A bind-less pattern tag, like `-hold`, is satisfied by any tag of its name. */
  lemma BindlessMatchesAnyBinds(e: Entity, name: string, es: seq<Entity>)
    ensures TagMatches(e, Tag(name, []), es) <==> exists t :: t in e.tags && t.tag == name
  {
    if exists t :: t in e.tags && t.tag == name {
      var t :| t in e.tags && t.tag == name;
      assert Agrees(t, Tag(name, []), es);
    }
  }

  /**
    Matching only reads the tags of the pattern's entity and the ids of the
    bound entities: two selections that agree on those agree on the pattern.
   */
  lemma PatternMatchesLocal(p: Pattern, es: seq<Entity>, es': seq<Entity>)
    requires PatternFits(p, |es|) && |es'| == |es|
    requires es'[p.entity].tags == es[p.entity].tags
    requires forall k :: 0 <= k < |es| ==> es'[k].id == es[k].id
    ensures PatternMatches(p, es') == PatternMatches(p, es)
  {
    assert forall t :: Agrees(t, p.tag, es') == Agrees(t, p.tag, es);
  }

  // ---------------------------------------------------------------- swizzling

  /** `swizzle_tuple`: the entities the indices select, or the whole list when there are none. */
  function Swizzle<T>(lst: seq<T>, idx: seq<nat>): (r: seq<T>)
    requires InBounds(idx, |lst|)
    ensures idx == [] ==> r == lst
    ensures idx != [] ==> |r| == |idx| && forall k :: 0 <= k < |idx| ==> r[k] == lst[idx[k]]
  {
    if idx == [] then lst else seq(|idx|, k requires 0 <= k < |idx| => lst[idx[k]])
  }

  /** `copy[idx[k]] = lst[k]` for the first `n` pairs, applied in order to `orig`. */
  function Overwrite<T>(orig: seq<T>, lst: seq<T>, idx: seq<nat>, n: nat): (r: seq<T>)
    requires n <= |lst| && n <= |idx| && InBounds(idx, |orig|)
    ensures |r| == |orig|
  {
    if n == 0 then orig else Overwrite(orig, lst, idx, n - 1)[idx[n - 1] := lst[n - 1]]
  }

  function Min(a: nat, b: nat): nat {
    if a < b then a else b
  }

  /** `unswizzle_tuple`: splices `lst` back into `orig` at the indices, or is `lst` when there are none. */
  function Unswizzled<T>(orig: seq<T>, lst: seq<T>, idx: seq<nat>): (r: seq<T>)
    requires InBounds(idx, |orig|)
  {
    if idx == [] then lst else Overwrite(orig, lst, idx, Min(|lst|, |idx|))
  }

  /** `unswizzle_tuple` as the source writes it: a copy of `orig` overwritten in a loop over `zip(lst, idx)`. */
  method Unswizzle<T>(orig: seq<T>, lst: seq<T>, idx: seq<nat>) returns (r: seq<T>)
    requires InBounds(idx, |orig|)
    ensures r == Unswizzled(orig, lst, idx)
  {
    if idx == [] {
      return lst;
    }
    var copy := orig;
    var n := Min(|lst|, |idx|);
    for k := 0 to n
      invariant copy == Overwrite(orig, lst, idx, k)
    {
      copy := copy[idx[k] := lst[k]];
    }
    return copy;
  }

  /** A position no pair writes keeps its element. */
  lemma {:induction false} OverwriteUntouched<T>(orig: seq<T>, lst: seq<T>, idx: seq<nat>, n: nat, p: nat)
    requires n <= |lst| && n <= |idx| && InBounds(idx, |orig|) && p < |orig|
    requires forall k :: 0 <= k < n ==> idx[k] != p
    ensures Overwrite(orig, lst, idx, n)[p] == orig[p]
    decreases n
  {
    if n > 0 {
      OverwriteUntouched(orig, lst, idx, n - 1, p);
    }
  }

  /** A position that pair `k` writes, and no later pair, holds `lst[k]`. */
  lemma {:induction false} OverwriteLast<T>(orig: seq<T>, lst: seq<T>, idx: seq<nat>, n: nat, k: nat)
    requires n <= |lst| && n <= |idx| && InBounds(idx, |orig|) && k < n
    requires forall k' :: k < k' < n ==> idx[k'] != idx[k]
    ensures Overwrite(orig, lst, idx, n)[idx[k]] == lst[k]
    decreases n
  {
    if k < n - 1 {
      OverwriteLast(orig, lst, idx, n - 1, k);
    }
  }

  /** Positions outside the indices keep their elements. */
  lemma UnswizzleUntouched<T>(orig: seq<T>, lst: seq<T>, idx: seq<nat>, p: nat)
    requires InBounds(idx, |orig|) && idx != [] && p < |orig|
    requires forall k :: 0 <= k < |idx| ==> idx[k] != p
    ensures |Unswizzled(orig, lst, idx)| == |orig|
    ensures Unswizzled(orig, lst, idx)[p] == orig[p]
  {
    OverwriteUntouched(orig, lst, idx, Min(|lst|, |idx|), p);
  }

  /** `lst[k]` lands at `idx[k]`, and of several pairs writing one position the last wins. */
  lemma UnswizzleLastWins<T>(orig: seq<T>, lst: seq<T>, idx: seq<nat>, k: nat)
    requires InBounds(idx, |orig|) && k < |idx| && k < |lst|
    requires forall k' :: k < k' < |idx| ==> idx[k'] != idx[k]
    ensures |Unswizzled(orig, lst, idx)| == |orig|
    ensures Unswizzled(orig, lst, idx)[idx[k]] == lst[k]
  {
    OverwriteLast(orig, lst, idx, Min(|lst|, |idx|), k);
  }

  /** Splicing back what was selected gives the list back. */
  lemma UnswizzleSwizzle<T>(orig: seq<T>, idx: seq<nat>)
    requires InBounds(idx, |orig|)
    ensures Unswizzled(orig, Swizzle(orig, idx), idx) == orig
  {
    if idx != [] {
      var r := Unswizzled(orig, Swizzle(orig, idx), idx);
      forall p | 0 <= p < |orig| ensures r[p] == orig[p] {
        if exists k :: 0 <= k < |idx| && idx[k] == p {
          var k := LastIndex(idx, p);
          UnswizzleLastWins(orig, Swizzle(orig, idx), idx, k);
        } else {
          UnswizzleUntouched(orig, Swizzle(orig, idx), idx, p);
        }
      }
    }
  }

  /** Selecting after splicing gives back what was spliced in, when no index repeats. */
  lemma SwizzleUnswizzle<T>(orig: seq<T>, lst: seq<T>, idx: seq<nat>)
    requires InBounds(idx, |orig|) && Distinct(idx) && |lst| == |idx|
    ensures Swizzle(Unswizzled(orig, lst, idx), idx) == lst
  {
    if idx != [] {
      forall k | 0 <= k < |idx| ensures Unswizzled(orig, lst, idx)[idx[k]] == lst[k] {
        UnswizzleLastWins(orig, lst, idx, k);
      }
    }
  }

  /**
    With repetition-free indices the splice is determined position by
    position: `lst[k]` at `idx[k]`, and `orig` everywhere else.
   */
  lemma UnswizzleExact<T>(orig: seq<T>, lst: seq<T>, idx: seq<nat>, want: seq<T>)
    requires InBounds(idx, |orig|) && idx != [] && Distinct(idx) && |lst| == |idx| && |want| == |orig|
    requires forall k :: 0 <= k < |idx| ==> want[idx[k]] == lst[k]
    requires forall p :: 0 <= p < |orig| && p !in idx ==> want[p] == orig[p]
    ensures Unswizzled(orig, lst, idx) == want
  {
    forall p | 0 <= p < |orig| ensures Unswizzled(orig, lst, idx)[p] == want[p] {
      if p in idx {
        var k :| 0 <= k < |idx| && idx[k] == p;
        UnswizzleLastWins(orig, lst, idx, k);
      } else {
        UnswizzleUntouched(orig, lst, idx, p);
      }
    }
  }

  /** The last position of `p` in `idx`. */
  function LastIndex(idx: seq<nat>, p: nat): (k: nat)
    requires exists k :: 0 <= k < |idx| && idx[k] == p
    ensures k < |idx| && idx[k] == p && forall k' :: k < k' < |idx| ==> idx[k'] != p
  {
    if idx[|idx| - 1] == p then |idx| - 1
    else
      var k := LastIndex(idx[..|idx| - 1], p);
      assert idx[..|idx| - 1][k] == idx[k];
      k
  }

  // ---------------------------------------------------------------- applying rules

  /** The `IndexError` message of `forward` and `backward` for too small a selection. */
  function NotEnoughMessage(rule: Rule): string {
    "Not enough entities provided for rule '" + rule.name + "'"
  }

  /**
    The guard `len(swizzle) < self.num if swizzle else len(entities) < self.num`
    as written: without a swizzle it reads the local `entities` before
    anything is assigned to it, which raises instead of comparing.
   */
  function GuardAsWritten(rule: Rule, pool: seq<Entity>, sw: seq<nat>): (r: Result<bool>)
    ensures sw != [] ==> r == Ok(|sw| < rule.Num())
    ensures sw == [] ==> r.Fail?
  {
    if sw != [] then Ok(|sw| < rule.Num())
    else Fail("local variable 'entities' referenced before assignment")
  }

  /** The guard as intended: the selection (the whole pool without a swizzle) has fewer entities than the rule. */
  predicate NotEnough(rule: Rule, pool: seq<Entity>, sw: seq<nat>) {
    if sw != [] then |sw| < rule.Num() else |pool| < rule.Num()
  }

  /**
    Without a swizzle the guard as written fails even on a pool large
    enough for the rule, where the intended guard lets the rule run; with
    a swizzle the two agree.
   */
  lemma GuardCrashesWithoutSwizzle(rule: Rule, pool: seq<Entity>, sw: seq<nat>)
    ensures rule.Num() <= |pool| ==> GuardAsWritten(rule, pool, []).Fail? && !NotEnough(rule, pool, [])
    ensures sw != [] ==> GuardAsWritten(rule, pool, sw) == Ok(NotEnough(rule, pool, sw))
  {
  }

  /** `Tag(pat.tag.tag, tuple(entities[b].id for b in pat.tag.binds))`: a pattern tag with its binds resolved to ids. */
  function Resolve(tag: Tag, es: seq<Entity>): (t: Tag)
    requires forall k :: 0 <= k < |tag.binds| ==> tag.binds[k] < |es|
    ensures t.tag == tag.tag && |t.binds| == |tag.binds|
    ensures forall k :: 0 <= k < |tag.binds| ==> t.binds[k] == es[tag.binds[k]].id
  {
    Tag(tag.tag, seq(|tag.binds|, k requires 0 <= k < |tag.binds| => es[tag.binds[k]].id))
  }

  lemma FitsWider(ps: seq<Pattern>, n: nat, m: nat)
    requires PatternsFit(ps, n) && n <= m
    ensures PatternsFit(ps, m)
  {
    forall k | 0 <= k < |ps| ensures PatternFits(ps[k], m) {
      assert PatternFits(ps[k], n);
    }
  }

  lemma FitsPrefix(ps: seq<Pattern>, i: nat, n: nat)
    requires PatternsFit(ps, n) && i <= |ps|
    ensures PatternsFit(ps[..i], n)
  {
    forall k | 0 <= k < i ensures PatternFits(ps[..i][k], n) {
      assert ps[..i][k] == ps[k];
    }
  }

  /** The preconditions all hold on the selected entities. */
  predicate Applicable(rule: Rule, es: seq<Entity>)
    requires PatternsFit(rule.pre, |es|)
  {
    forall k :: 0 <= k < |rule.pre| ==> PatternMatches(rule.pre[k], es)
  }

  /** `all(pattern_match(p, entities) for p in pats)`, stopping at the first pattern that fails. */
  method AllMatch(pats: seq<Pattern>, es: seq<Entity>) returns (ok: bool)
    requires PatternsFit(pats, |es|)
    ensures ok <==> forall k :: 0 <= k < |pats| ==> PatternMatches(pats[k], es)
  {
    for i := 0 to |pats|
      invariant forall k :: 0 <= k < i ==> PatternMatches(pats[k], es)
    {
      assert PatternFits(pats[i], |es|);
      var holds := PatternMatch(pats[i], es);
      if !holds {
        return false;
      }
    }
    return true;
  }

  /**
    One postcondition applied to the tags of local entity `j`: a positive
    one adds its resolved tag, a negative one removes every tag of its
    name whatever the binds.
   */
  function PostStep(tags: set<Tag>, p: Pattern, j: nat, es: seq<Entity>): set<Tag>
    requires PatternFits(p, |es|)
  {
    if p.entity != j then tags
    else if p.sign then tags + {Resolve(p.tag, es)}
    else tags - set t | t in tags && t.tag == p.tag.tag
  }

  /** The postconditions applied in order to the tags of local entity `j`. */
  function ApplyPosts(tags: set<Tag>, posts: seq<Pattern>, j: nat, es: seq<Entity>): set<Tag>
    requires PatternsFit(posts, |es|)
    decreases |posts|
  {
    if posts == [] then tags
    else
      FitsPrefix(posts, |posts| - 1, |es|);
      PostStep(ApplyPosts(tags, posts[..|posts| - 1], j, es), posts[|posts| - 1], j, es)
  }

  /** The selected entities once the postconditions are applied: same ids and names, new tags, no notags. */
  function Fired(rule: Rule, es: seq<Entity>): (r: seq<Entity>)
    requires WellFormed(rule) && rule.Num() <= |es|
    ensures |r| == |es|
  {
    FitsWider(rule.post, rule.Num(), |es|);
    seq(|es|, j requires 0 <= j < |es| => Entity(es[j].id, es[j].name, ApplyPosts(es[j].tags, rule.post, j, es), {}))
  }

  /**
    `forward`: too small a selection raises, a failing precondition gives
    `None`, and otherwise the fired entities are spliced back into the pool.
   */
  function Forwarded(rule: Rule, pool: seq<Entity>, sw: seq<nat>): Result<Option<seq<Entity>>>
    requires WellFormed(rule) && InBounds(sw, |pool|)
  {
    if NotEnough(rule, pool, sw) then Fail(NotEnoughMessage(rule))
    else
      var es := Swizzle(pool, sw);
      FitsWider(rule.pre, rule.Num(), |es|);
      if !Applicable(rule, es) then Ok(None)
      else Ok(Some(Unswizzled(pool, Fired(rule, es), sw)))
  }

  /** `Rule.forward`: per-entity tag sets changed in place by a loop over the postconditions. */
  method Forward(rule: Rule, pool: seq<Entity>, sw: seq<nat>) returns (r: Result<Option<seq<Entity>>>)
    requires WellFormed(rule) && InBounds(sw, |pool|)
    ensures r == Forwarded(rule, pool, sw)
  {
    if NotEnough(rule, pool, sw) {
      return Fail(NotEnoughMessage(rule));
    }
    var es := Swizzle(pool, sw);
    FitsWider(rule.pre, rule.Num(), |es|);
    FitsWider(rule.post, rule.Num(), |es|);
    var tags := seq(|es|, j requires 0 <= j < |es| => es[j].tags);
    var ok := AllMatch(rule.pre, es);
    if !ok {
      return Ok(None);
    }
    for i := 0 to |rule.post|
      invariant |tags| == |es|
      invariant forall j :: 0 <= j < |es| ==> tags[j] == ApplyPosts(es[j].tags, rule.post[..i], j, es)
    {
      var pat := rule.post[i];
      assert PatternFits(pat, |es|);
      assert rule.post[..i + 1][..i] == rule.post[..i];
      var added := Resolve(pat.tag, es);
      if pat.sign {
        tags := tags[pat.entity := tags[pat.entity] + {added}];
      } else {
        var rem := set t | t in tags[pat.entity] && t.tag == pat.tag.tag;
        tags := tags[pat.entity := tags[pat.entity] - rem];
      }
    }
    assert rule.post[..|rule.post|] == rule.post;
    var fired := seq(|es|, j requires 0 <= j < |es| => Entity(es[j].id, es[j].name, tags[j], {}));
    assert fired == Fired(rule, es);
    var out := Unswizzle(pool, fired, sw);
    return Ok(Some(out));
  }

  /** The resolved tags of the patterns of sign `sign` about local entity `j`. */
  function Resolved(pats: seq<Pattern>, j: nat, sign: bool, es: seq<Entity>): set<Tag>
    requires PatternsFit(pats, |es|)
  {
    set k | 0 <= k < |pats| && pats[k].entity == j && pats[k].sign == sign :: Resolve(pats[k].tag, es)
  }

  /**
    The selected entities regressed through the rule: the tags the
    postconditions add or remove are taken back, then the tags and notags
    the preconditions demand are put in.
   */
  function Regress(rule: Rule, es: seq<Entity>): (r: seq<Entity>)
    requires WellFormed(rule) && rule.Num() <= |es|
    ensures |r| == |es|
  {
    FitsWider(rule.pre, rule.Num(), |es|);
    FitsWider(rule.post, rule.Num(), |es|);
    seq(|es|, j requires 0 <= j < |es| =>
      Entity(es[j].id, es[j].name,
        (es[j].tags - Resolved(rule.post, j, true, es)) + Resolved(rule.pre, j, true, es),
        (es[j].notags - Resolved(rule.post, j, false, es)) + Resolved(rule.pre, j, false, es)))
  }

  /** `backward`: too small a selection raises; otherwise the regressed entities are spliced back. */
  function Regressed(rule: Rule, pool: seq<Entity>, sw: seq<nat>): Result<seq<Entity>>
    requires WellFormed(rule) && InBounds(sw, |pool|)
  {
    if NotEnough(rule, pool, sw) then Fail(NotEnoughMessage(rule))
    else Ok(Unswizzled(pool, Regress(rule, Swizzle(pool, sw)), sw))
  }

  /** One more pattern adds at most its own resolved tag to the resolved sets. */
  lemma ResolvedSnoc(pats: seq<Pattern>, i: nat, sign: bool, es: seq<Entity>)
    requires PatternsFit(pats, |es|) && i < |pats|
    ensures PatternsFit(pats[..i], |es|) && PatternsFit(pats[..i + 1], |es|)
    ensures forall j :: (Resolved(pats[..i + 1], j, sign, es) ==
      Resolved(pats[..i], j, sign, es) + (if pats[i].entity == j && pats[i].sign == sign then {Resolve(pats[i].tag, es)} else {}))
  {
    FitsPrefix(pats, i, |es|);
    FitsPrefix(pats, i + 1, |es|);
    var a, b := pats[..i + 1], pats[..i];
    assert forall k :: 0 <= k < i ==> a[k] == b[k] == pats[k];
    assert a[i] == pats[i];
  }

  /** `Rule.backward`: per-entity tag and notag sets changed in place by loops over the post- and preconditions. */
  method Backward(rule: Rule, pool: seq<Entity>, sw: seq<nat>) returns (r: Result<seq<Entity>>)
    requires WellFormed(rule) && InBounds(sw, |pool|)
    ensures r == Regressed(rule, pool, sw)
  {
    if NotEnough(rule, pool, sw) {
      return Fail(NotEnoughMessage(rule));
    }
    var es := Swizzle(pool, sw);
    FitsWider(rule.pre, rule.Num(), |es|);
    FitsWider(rule.post, rule.Num(), |es|);
    var tags := seq(|es|, j requires 0 <= j < |es| => es[j].tags);
    var notags := seq(|es|, j requires 0 <= j < |es| => es[j].notags);
    tags, notags := DiscardAll(rule.post, es, tags, notags);
    tags, notags := AddAll(rule.pre, es, tags, notags);
    var regressed := seq(|es|, j requires 0 <= j < |es| => Entity(es[j].id, es[j].name, tags[j], notags[j]));
    assert regressed == Regress(rule, es);
    var out := Unswizzle(pool, regressed, sw);
    return Ok(out);
  }

  /** The loop of `backward` over the postconditions: each resolved tag is discarded from the tags or notags. */
  method DiscardAll(pats: seq<Pattern>, es: seq<Entity>, tags0: seq<set<Tag>>, notags0: seq<set<Tag>>)
    returns (tags: seq<set<Tag>>, notags: seq<set<Tag>>)
    requires PatternsFit(pats, |es|) && |tags0| == |es| && |notags0| == |es|
    ensures |tags| == |es| && |notags| == |es|
    ensures forall j :: 0 <= j < |es| ==> tags[j] == tags0[j] - Resolved(pats, j, true, es)
    ensures forall j :: 0 <= j < |es| ==> notags[j] == notags0[j] - Resolved(pats, j, false, es)
  {
    tags, notags := tags0, notags0;
    FitsPrefix(pats, 0, |es|);
    for i := 0 to |pats|
      invariant |tags| == |es| && |notags| == |es|
      invariant PatternsFit(pats[..i], |es|)
      invariant forall j :: 0 <= j < |es| ==> tags[j] == tags0[j] - Resolved(pats[..i], j, true, es)
      invariant forall j :: 0 <= j < |es| ==> notags[j] == notags0[j] - Resolved(pats[..i], j, false, es)
    {
      var pat := pats[i];
      assert PatternFits(pat, |es|);
      ResolvedSnoc(pats, i, true, es);
      ResolvedSnoc(pats, i, false, es);
      var binds := Resolve(pat.tag, es);
      if pat.sign {
        tags := tags[pat.entity := tags[pat.entity] - {binds}];
      } else {
        notags := notags[pat.entity := notags[pat.entity] - {binds}];
      }
    }
    assert pats[..|pats|] == pats;
  }

  /** The loop of `backward` over the preconditions: each resolved tag is added to the tags or notags. */
  method AddAll(pats: seq<Pattern>, es: seq<Entity>, tags0: seq<set<Tag>>, notags0: seq<set<Tag>>)
    returns (tags: seq<set<Tag>>, notags: seq<set<Tag>>)
    requires PatternsFit(pats, |es|) && |tags0| == |es| && |notags0| == |es|
    ensures |tags| == |es| && |notags| == |es|
    ensures forall j :: 0 <= j < |es| ==> tags[j] == tags0[j] + Resolved(pats, j, true, es)
    ensures forall j :: 0 <= j < |es| ==> notags[j] == notags0[j] + Resolved(pats, j, false, es)
  {
    tags, notags := tags0, notags0;
    FitsPrefix(pats, 0, |es|);
    for i := 0 to |pats|
      invariant |tags| == |es| && |notags| == |es|
      invariant PatternsFit(pats[..i], |es|)
      invariant forall j :: 0 <= j < |es| ==> tags[j] == tags0[j] + Resolved(pats[..i], j, true, es)
      invariant forall j :: 0 <= j < |es| ==> notags[j] == notags0[j] + Resolved(pats[..i], j, false, es)
    {
      var pat := pats[i];
      assert PatternFits(pat, |es|);
      ResolvedSnoc(pats, i, true, es);
      ResolvedSnoc(pats, i, false, es);
      var binds := Resolve(pat.tag, es);
      if pat.sign {
        tags := tags[pat.entity := tags[pat.entity] + {binds}];
      } else {
        notags := notags[pat.entity := notags[pat.entity] + {binds}];
      }
    }
    assert pats[..|pats|] == pats;
  }

  // ---------------------------------------------------------------- what applying a rule establishes

  /** Postcondition `p` adds tag `t` to local entity `j`. */
  predicate Adds(p: Pattern, j: nat, t: Tag, es: seq<Entity>)
    requires PatternFits(p, |es|)
  {
    p.entity == j && p.sign && Resolve(p.tag, es) == t
  }

  /** Postcondition `p` removes tag `t` (any tag of its name) from local entity `j`. */
  predicate Removes(p: Pattern, j: nat, t: Tag) {
    p.entity == j && !p.sign && p.tag.tag == t.tag
  }

  /**
    The postconditions read as last-writer-wins: a tag is present after
    them when it was there before and nothing removed its name, or when
    some postcondition added it and nothing removed its name afterwards.
   */
  lemma {:induction false} PostMembership(tags: set<Tag>, posts: seq<Pattern>, j: nat, es: seq<Entity>, t: Tag)
    requires PatternsFit(posts, |es|)
    ensures t in ApplyPosts(tags, posts, j, es) <==>
      || (t in tags && forall k :: 0 <= k < |posts| ==> !Removes(posts[k], j, t))
      || (exists k :: 0 <= k < |posts| && Adds(posts[k], j, t, es) && forall k' :: k < k' < |posts| ==> !Removes(posts[k'], j, t))
    decreases |posts|
  {
    if posts != [] {
      var n := |posts| - 1;
      var init, last := posts[..n], posts[n];
      FitsPrefix(posts, n, |es|);
      PostMembership(tags, init, j, es, t);
      assert forall k :: 0 <= k < n ==> init[k] == posts[k];
      assert PatternFits(last, |es|);
      if Removes(last, j, t) {
        assert t !in ApplyPosts(tags, posts, j, es);
      } else if Adds(last, j, t, es) {
        assert t in ApplyPosts(tags, posts, j, es);
      } else {
        assert t in ApplyPosts(tags, posts, j, es) <==> t in ApplyPosts(tags, init, j, es);
      }
    }
  }

  /**
    After `forward`, every postcondition that is the last one about its
    entity and tag name holds of the new entities.
   */
  lemma PostHolds(rule: Rule, es: seq<Entity>, k: nat)
    requires WellFormed(rule) && rule.Num() <= |es| && k < |rule.post|
    requires forall k' :: k < k' < |rule.post| ==>
      rule.post[k'].entity != rule.post[k].entity || rule.post[k'].tag.tag != rule.post[k].tag.tag
    ensures PatternFits(rule.post[k], |es|)
    ensures PatternMatches(rule.post[k], Fired(rule, es))
  {
    FitsWider(rule.post, rule.Num(), |es|);
    var p, fired := rule.post[k], Fired(rule, es);
    var j := p.entity;
    assert PatternFits(p, |es|);
    assert forall b :: 0 <= b < |es| ==> fired[b].id == es[b].id;
    if p.sign {
      var t0 := Resolve(p.tag, es);
      PostMembership(es[j].tags, rule.post, j, es, t0);
      assert Adds(p, j, t0, es);
      assert t0 in fired[j].tags;
      assert Agrees(t0, p.tag, fired);
    } else {
      forall t | t in fired[j].tags ensures t.tag != p.tag.tag {
        PostMembership(es[j].tags, rule.post, j, es, t);
        assert Removes(rule.post[k], j, t) || t.tag != p.tag.tag;
      }
    }
  }

  /**
    After `backward`, every positive precondition holds of the regressed
    entities and every negative one is recorded among their notags.
   */
  lemma PreHoldsAfterBackward(rule: Rule, es: seq<Entity>, k: nat)
    requires WellFormed(rule) && rule.Num() <= |es| && k < |rule.pre|
    ensures PatternFits(rule.pre[k], |es|)
    ensures rule.pre[k].sign ==> PatternMatches(rule.pre[k], Regress(rule, es))
    ensures !rule.pre[k].sign ==> Resolve(rule.pre[k].tag, es) in Regress(rule, es)[rule.pre[k].entity].notags
  {
    FitsWider(rule.pre, rule.Num(), |es|);
    var p, regressed := rule.pre[k], Regress(rule, es);
    assert PatternFits(p, |es|);
    var t0 := Resolve(p.tag, es);
    assert t0 in Resolved(rule.pre, p.entity, p.sign, es);
    assert forall b :: 0 <= b < |es| ==> regressed[b].id == es[b].id;
    assert Agrees(t0, p.tag, regressed);
  }

  /** A pool position the rule works on: every position without a swizzle, else those the swizzle names. */
  predicate Selected(sw: seq<nat>, p: nat) {
    sw == [] || p in sw
  }

  /** The selected entity that is spliced back at pool position `p`: the last one selected from there. */
  function Slot(sw: seq<nat>, p: nat): nat
    requires Selected(sw, p)
  {
    if sw == [] then p else LastIndex(sw, p)
  }

  /**
    Splicing back selected entities that kept their ids and names: the
    pool keeps its length, ids and names, unselected positions, and gets
    at each selected position the entity its last selection became.
   */
  lemma SpliceFrame(pool: seq<Entity>, lst: seq<Entity>, sw: seq<nat>)
    requires InBounds(sw, |pool|) && |lst| == |Swizzle(pool, sw)|
    requires forall k :: 0 <= k < |lst| ==> lst[k].id == Swizzle(pool, sw)[k].id && lst[k].name == Swizzle(pool, sw)[k].name
    ensures |Unswizzled(pool, lst, sw)| == |pool|
    ensures forall p :: 0 <= p < |pool| && Selected(sw, p) ==> Slot(sw, p) < |lst| && Unswizzled(pool, lst, sw)[p] == lst[Slot(sw, p)]
    ensures forall p :: 0 <= p < |pool| && !Selected(sw, p) ==> Unswizzled(pool, lst, sw)[p] == pool[p]
    ensures forall p :: 0 <= p < |pool| ==>
      Unswizzled(pool, lst, sw)[p].id == pool[p].id && Unswizzled(pool, lst, sw)[p].name == pool[p].name
  {
    if sw != [] {
      forall p | 0 <= p < |pool|
        ensures Selected(sw, p) ==> Slot(sw, p) < |lst| && Unswizzled(pool, lst, sw)[p] == lst[Slot(sw, p)]
        ensures !Selected(sw, p) ==> Unswizzled(pool, lst, sw)[p] == pool[p]
        ensures Unswizzled(pool, lst, sw)[p].id == pool[p].id && Unswizzled(pool, lst, sw)[p].name == pool[p].name
      {
        if p in sw {
          UnswizzleLastWins(pool, lst, sw, LastIndex(sw, p));
        } else {
          UnswizzleUntouched(pool, lst, sw, p);
        }
      }
    }
  }

  /**
    A successful `forward` returns a pool of the same length with the same
    ids and names, leaves the unselected entities alone, and puts at each
    selected position its fired entity, whose notags are empty.
   */
  lemma ForwardFrame(rule: Rule, pool: seq<Entity>, sw: seq<nat>, out: seq<Entity>)
    requires WellFormed(rule) && InBounds(sw, |pool|)
    requires Forwarded(rule, pool, sw) == Ok(Some(out))
    ensures rule.Num() <= |Swizzle(pool, sw)| && |out| == |pool|
    ensures forall p :: 0 <= p < |pool| ==> out[p].id == pool[p].id && out[p].name == pool[p].name
    ensures forall p :: 0 <= p < |pool| && !Selected(sw, p) ==> out[p] == pool[p]
    ensures forall p :: 0 <= p < |pool| && Selected(sw, p) ==>
      Slot(sw, p) < |Swizzle(pool, sw)| && out[p] == Fired(rule, Swizzle(pool, sw))[Slot(sw, p)] && out[p].notags == {}
  {
    var es := Swizzle(pool, sw);
    SpliceFrame(pool, Fired(rule, es), sw);
  }

  /**
    `backward` returns a pool of the same length with the same ids and
    names, leaves the unselected entities alone, and puts at each selected
    position its regressed entity.
   */
  lemma BackwardFrame(rule: Rule, pool: seq<Entity>, sw: seq<nat>, out: seq<Entity>)
    requires WellFormed(rule) && InBounds(sw, |pool|)
    requires Regressed(rule, pool, sw) == Ok(out)
    ensures rule.Num() <= |Swizzle(pool, sw)| && |out| == |pool|
    ensures forall p :: 0 <= p < |pool| ==> out[p].id == pool[p].id && out[p].name == pool[p].name
    ensures forall p :: 0 <= p < |pool| && !Selected(sw, p) ==> out[p] == pool[p]
    ensures forall p :: 0 <= p < |pool| && Selected(sw, p) ==>
      Slot(sw, p) < |Swizzle(pool, sw)| && out[p] == Regress(rule, Swizzle(pool, sw))[Slot(sw, p)]
  {
    var es := Swizzle(pool, sw);
    SpliceFrame(pool, Regress(rule, es), sw);
  }

  /**
    Applying a rule forwards right after applying it backwards on the same
    repetition-free selection never raises, and succeeds exactly when no
    negative precondition is contradicted by a tag the entities still have.
   */
  lemma ForwardAfterBackward(rule: Rule, pool: seq<Entity>, sw: seq<nat>)
    requires WellFormed(rule) && InBounds(sw, |pool|) && Distinct(sw)
    requires Regressed(rule, pool, sw).Ok?
    ensures var out := Regressed(rule, pool, sw).value;
      && InBounds(sw, |out|)
      && Forwarded(rule, out, sw).Ok?
      && (Forwarded(rule, out, sw).value.Some? <==>
          var regressed := Regress(rule, Swizzle(pool, sw));
          forall k :: 0 <= k < |rule.pre| && !rule.pre[k].sign ==>
            !TagMatches(regressed[rule.pre[k].entity], rule.pre[k].tag, regressed))
  {
    var es := Swizzle(pool, sw);
    var regressed := Regress(rule, es);
    var out := Regressed(rule, pool, sw).value;
    SpliceFrame(pool, regressed, sw);
    if sw != [] {
      SwizzleUnswizzle(pool, regressed, sw);
    }
    assert Swizzle(out, sw) == regressed;
    FitsWider(rule.pre, rule.Num(), |es|);
    forall k | 0 <= k < |rule.pre| && rule.pre[k].sign ensures PatternMatches(rule.pre[k], regressed) {
      PreHoldsAfterBackward(rule, es, k);
    }
  }

  // ---------------------------------------------------------------- loading parsed records

  /** `lst.index(x)`: the position of the first occurrence of `x`. */
  function IndexOf(s: seq<string>, x: string): (i: nat)
    requires x in s
    ensures i < |s| && s[i] == x
    ensures forall k :: 0 <= k < i ==> s[k] != x
  {
    if s[0] == x then 0 else 1 + IndexOf(s[1..], x)
  }

  /** In a prefix that holds `x`, `x` is first found where it is found in the whole sequence. */
  lemma IndexOfPrefix(s: seq<string>, n: nat, x: string)
    requires n <= |s| && x in s[..n]
    ensures IndexOf(s, x) == IndexOf(s[..n], x)
  {
    var a, b := IndexOf(s, x), IndexOf(s[..n], x);
    assert s[b] == s[..n][b];
  }

  /** `list(OrderedDict.fromkeys(s))`: the elements of `s`, each once. */
  function Dedup(s: seq<string>): (r: seq<string>)
    ensures Distinct(r)
    ensures forall x :: x in r <==> x in s
    decreases |s|
  {
    if s == [] then []
    else
      var d := Dedup(s[..|s| - 1]);
      assert forall x :: x in s <==> x in s[..|s| - 1] || x == s[|s| - 1] by {
        assert s == s[..|s| - 1] + [s[|s| - 1]];
      }
      if s[|s| - 1] in d then d else d + [s[|s| - 1]]
  }

  /** `OrderedDict.fromkeys` keeps the elements in the order in which they first appear. */
  lemma {:induction false} DedupFirstSeen(s: seq<string>)
    ensures forall a, b :: 0 <= a < b < |Dedup(s)| ==> IndexOf(s, Dedup(s)[a]) < IndexOf(s, Dedup(s)[b])
    decreases |s|
  {
    if s != [] {
      var init, last := s[..|s| - 1], s[|s| - 1];
      var d := Dedup(init);
      DedupFirstSeen(init);
      forall x | x in init ensures IndexOf(s, x) == IndexOf(init, x) {
        IndexOfPrefix(s, |s| - 1, x);
      }
      if last !in d {
        assert IndexOf(s, last) == |s| - 1;
        assert forall a :: 0 <= a < |d| ==> IndexOf(init, d[a]) < |s| - 1;
      }
    }
  }

  /** The entity names of parsed patterns, in text order. */
  function Subjects(ps: seq<DbParse.ParsedPattern>): seq<string> {
    seq(|ps|, k requires 0 <= k < |ps| => ps[k].entity)
  }

  /** The entity and every bind of a parsed pattern are among `names`. */
  predicate Named(names: seq<string>, p: DbParse.ParsedPattern) {
    p.entity in names && forall k :: 0 <= k < |p.tag.binds| ==> p.tag.binds[k] in names
  }

  /**
    The parsed form of a rule pattern, its local indices replaced by the
    names they stand for (what `format_rule` prints).
   */
  function Spelled(names: seq<string>, p: Pattern): DbParse.ParsedPattern
    requires PatternFits(p, |names|)
  {
    DbParse.ParsedPattern(names[p.entity],
      DbParse.ParsedTag(p.sign, p.tag.tag, seq(|p.tag.binds|, k requires 0 <= k < |p.tag.binds| => names[p.tag.binds[k]])))
  }

  /** `create_pattern`: entity and binds become the positions of their names in `names`. */
  function CreatePattern(names: seq<string>, p: DbParse.ParsedPattern): (r: Pattern)
    requires Named(names, p)
    ensures PatternFits(r, |names|) && Spelled(names, r) == p
  {
    var binds := seq(|p.tag.binds|, k requires 0 <= k < |p.tag.binds| => IndexOf(names, p.tag.binds[k]));
    var r := Pattern(p.tag.sign, IndexOf(names, p.entity), Tag(p.tag.name, binds));
    assert Spelled(names, r).tag.binds == p.tag.binds;
    r
  }

  /** Over distinct names, a pattern is determined by its spelling. */
  lemma SpelledInjective(names: seq<string>, p: Pattern, q: Pattern)
    requires Distinct(names) && PatternFits(p, |names|) && PatternFits(q, |names|)
    requires Spelled(names, p) == Spelled(names, q)
    ensures p == q
  {
    var sp, sq := Spelled(names, p).tag.binds, Spelled(names, q).tag.binds;
    assert |p.tag.binds| == |sp| == |sq| == |q.tag.binds|;
    forall k | 0 <= k < |p.tag.binds| ensures p.tag.binds[k] == q.tag.binds[k] {
      assert names[p.tag.binds[k]] == sp[k] == sq[k] == names[q.tag.binds[k]];
    }
  }

  /** Every bind of a parsed rule is the name of one of the rule's entities. */
  predicate BindsNamed(r: DbParse.ParsedRule) {
    var ps := r.pre + r.post;
    forall k, i :: 0 <= k < |ps| && 0 <= i < |ps[k].tag.binds| ==> ps[k].tag.binds[i] in Subjects(ps)
  }

  /** `[create_pattern(p) for p in pats]` */
  function CreatePatterns(names: seq<string>, ps: seq<DbParse.ParsedPattern>): (r: seq<Pattern>)
    requires forall k :: 0 <= k < |ps| ==> Named(names, ps[k])
    ensures |r| == |ps| && PatternsFit(r, |names|)
    ensures forall k :: 0 <= k < |ps| ==> Spelled(names, r[k]) == ps[k]
  {
    seq(|ps|, k requires 0 <= k < |ps| => CreatePattern(names, ps[k]))
  }

  /** Under `BindsNamed`, the distinct entity names of a rule name every entity and bind of its patterns. */
  lemma RuleNamesCover(r: DbParse.ParsedRule)
    requires BindsNamed(r)
    ensures forall k :: 0 <= k < |r.pre| ==> Named(Dedup(Subjects(r.pre + r.post)), r.pre[k])
    ensures forall k :: 0 <= k < |r.post| ==> Named(Dedup(Subjects(r.pre + r.post)), r.post[k])
  {
    var ps := r.pre + r.post;
    var names := Dedup(Subjects(ps));
    forall k | 0 <= k < |ps| ensures Named(names, ps[k]) {
      assert Subjects(ps)[k] == ps[k].entity;
    }
    assert forall k :: 0 <= k < |r.pre| ==> r.pre[k] == ps[k];
    assert forall k :: 0 <= k < |r.post| ==> r.post[k] == ps[|r.pre| + k];
  }

  /** The parsed form of a rule, every pattern spelled with the rule's names. */
  function Written(rule: Rule): DbParse.ParsedRule
    requires WellFormed(rule)
  {
    DbParse.ParsedRule(rule.name, rule.desc,
      seq(|rule.pre|, k requires 0 <= k < |rule.pre| => Spelled(rule.names, rule.pre[k])),
      seq(|rule.post|, k requires 0 <= k < |rule.post| => Spelled(rule.names, rule.post[k])))
  }

  /**
    `create_rule`: the rule's entities are the distinct entity names of
    its patterns in order of first appearance, and each pattern is read
    against them.
   */
  function CreateRule(r: DbParse.ParsedRule): (rule: Rule)
    requires BindsNamed(r)
    ensures rule.name == r.name && rule.desc == r.desc
    ensures Distinct(rule.names) && forall n :: n in rule.names <==> n in Subjects(r.pre + r.post)
    ensures forall a, b :: 0 <= a < b < |rule.names| ==>
      IndexOf(Subjects(r.pre + r.post), rule.names[a]) < IndexOf(Subjects(r.pre + r.post), rule.names[b])
    ensures WellFormed(rule) && |rule.pre| == |r.pre| && |rule.post| == |r.post|
    ensures forall k :: 0 <= k < |r.pre| ==> Spelled(rule.names, rule.pre[k]) == r.pre[k]
    ensures forall k :: 0 <= k < |r.post| ==> Spelled(rule.names, rule.post[k]) == r.post[k]
  {
    var names := Dedup(Subjects(r.pre + r.post));
    DedupFirstSeen(Subjects(r.pre + r.post));
    RuleNamesCover(r);
    Rule(r.name, r.desc, names, CreatePatterns(names, r.pre), CreatePatterns(names, r.post))
  }

  /** Spelling a created rule back with its names gives the parsed rule it came from. */
  lemma CreateRuleWritten(r: DbParse.ParsedRule)
    requires BindsNamed(r)
    ensures Written(CreateRule(r)) == r
  {
    var rule := CreateRule(r);
    assert Written(rule).pre == r.pre && Written(rule).post == r.post;
  }

  /** The bound entity ids of `tg` are positions of a pool of `n`. */
  predicate BindsBelow(tg: Tag, n: nat) {
    forall i :: 0 <= i < |tg.binds| ==> tg.binds[i] < n
  }

  /** An entity tag with its bound ids replaced by the names at those positions (what `format_entities` prints). */
  function SpelledTag(order: seq<string>, tg: Tag): DbParse.NamedTag
    requires BindsBelow(tg, |order|)
  {
    DbParse.NamedTag(tg.tag, seq(|tg.binds|, i requires 0 <= i < |tg.binds| => order[tg.binds[i]]))
  }

  /** Entity tag `tg`, read back through `order`, is the tag `nt` of an entity line. */
  predicate SpellsAs(order: seq<string>, tg: Tag, nt: DbParse.NamedTag) {
    BindsBelow(tg, |order|) && SpelledTag(order, tg) == nt
  }

  /** Every bind of the tags is a key of the table. */
  predicate TagBindsKnown(t: DbParse.EntityTable, tags: seq<DbParse.NamedTag>) {
    forall k, i :: 0 <= k < |tags| && 0 <= i < |tags[k].binds| ==> tags[k].binds[i] in t.entries
  }

  /** `Tag(t[0], tuple(ents[b][0] for b in t[1]))`: a tag's binds become the ids of the named entities. */
  function ResolveNamed(t: DbParse.EntityTable, nt: DbParse.NamedTag): Tag
    requires forall i :: 0 <= i < |nt.binds| ==> nt.binds[i] in t.entries
  {
    Tag(nt.name, seq(|nt.binds|, i requires 0 <= i < |nt.binds| => t.entries[nt.binds[i]].index))
  }

  /** The tags of an entity line with their binds resolved to ids. */
  function ResolvedTags(t: DbParse.EntityTable, tags: seq<DbParse.NamedTag>): set<Tag>
    requires TagBindsKnown(t, tags)
  {
    set k | 0 <= k < |tags| :: ResolveNamed(t, tags[k])
  }

  /** Read back through a numbered table's order, the resolved tags are the tags written. */
  lemma ResolvedTagsSpelled(t: DbParse.EntityTable, tags: seq<DbParse.NamedTag>)
    requires DbParse.Numbered(t) && TagBindsKnown(t, tags)
    ensures forall tg :: tg in ResolvedTags(t, tags) ==> BindsBelow(tg, |t.order|) && SpelledTag(t.order, tg) in tags
    ensures forall k :: 0 <= k < |tags| ==>
      ResolveNamed(t, tags[k]) in ResolvedTags(t, tags) && SpellsAs(t.order, ResolveNamed(t, tags[k]), tags[k])
  {
    DbParse.NumberedIndices(t);
    forall k | 0 <= k < |tags|
      ensures ResolveNamed(t, tags[k]) in ResolvedTags(t, tags) && SpellsAs(t.order, ResolveNamed(t, tags[k]), tags[k])
    {
      var tg := ResolveNamed(t, tags[k]);
      assert SpelledTag(t.order, tg).binds == tags[k].binds;
    }
    forall tg | tg in ResolvedTags(t, tags) ensures BindsBelow(tg, |t.order|) && SpelledTag(t.order, tg) in tags {
      var k :| 0 <= k < |tags| && tg == ResolveNamed(t, tags[k]);
      assert SpelledTag(t.order, tg).binds == tags[k].binds;
    }
  }

  /**
    `create_entity`: an entity with the given index as its id and its tags'
    binds resolved to ids.  Read back through the table's order, its tags
    are exactly the tags written for it.
   */
  function CreateEntity(t: DbParse.EntityTable, name: string, index: nat, tags: seq<DbParse.NamedTag>): (e: Entity)
    requires DbParse.Numbered(t) && TagBindsKnown(t, tags)
    ensures e.id == index && e.name == name && e.notags == {}
    ensures forall tg :: tg in e.tags ==> BindsBelow(tg, |t.order|) && SpelledTag(t.order, tg) in tags
    ensures forall k :: 0 <= k < |tags| ==>
      ResolveNamed(t, tags[k]) in e.tags && SpellsAs(t.order, ResolveNamed(t, tags[k]), tags[k])
  {
    ResolvedTagsSpelled(t, tags);
    Entity(index, name, ResolvedTags(t, tags), {})
  }

  /** Every bind of every entry of the table is a key of the table. */
  predicate BindsKnown(t: DbParse.EntityTable) {
    forall n :: n in t.entries ==> TagBindsKnown(t, t.entries[n].tags)
  }

  /**
    `[create_entity(ents, k, *v) for k, v in ents.items()]`: the entities in
    the table's order, so that each one's id is its position in the list.
   */
  function LoadEntities(t: DbParse.EntityTable): (pool: seq<Entity>)
    requires DbParse.Numbered(t) && BindsKnown(t)
    ensures |pool| == |t.order|
    ensures forall k :: 0 <= k < |pool| ==> pool[k].id == k && pool[k].name == t.order[k] && pool[k].notags == {}
    ensures forall k, tg :: 0 <= k < |pool| && tg in pool[k].tags ==>
      BindsBelow(tg, |pool|) && SpelledTag(t.order, tg) in t.entries[t.order[k]].tags
    ensures forall k, j :: 0 <= k < |pool| && 0 <= j < |t.entries[t.order[k]].tags| ==>
      var nt := t.entries[t.order[k]].tags[j];
      ResolveNamed(t, nt) in pool[k].tags && SpellsAs(t.order, ResolveNamed(t, nt), nt)
  {
    seq(|t.order|, k requires 0 <= k < |t.order| =>
      CreateEntity(t, t.order[k], t.entries[t.order[k]].index, t.entries[t.order[k]].tags))
  }

  /** The first of `ws` not in `known`: the lookup that raises first. */
  function FirstUnknown(known: set<string>, ws: seq<string>): (r: Option<string>)
    ensures r == None <==> forall i :: 0 <= i < |ws| ==> ws[i] in known
    ensures r.Some? ==> r.value !in known && r.value in ws
  {
    if ws == [] then None
    else if ws[0] !in known then Some(ws[0])
    else FirstUnknown(known, ws[1..])
  }

  /** `b` is a bind of one of `tags`. */
  predicate BindOf(tags: seq<DbParse.NamedTag>, b: string) {
    exists k :: 0 <= k < |tags| && b in tags[k].binds
  }

  /** The first bind of the lists, in order, not in `known`. */
  function FirstUnknownIn(known: set<string>, wss: seq<seq<string>>): (r: Option<string>)
    ensures r == None <==> forall k, i :: 0 <= k < |wss| && 0 <= i < |wss[k]| ==> wss[k][i] in known
    ensures r.Some? ==> r.value !in known && exists k :: 0 <= k < |wss| && r.value in wss[k]
  {
    if wss == [] then None
    else
      match FirstUnknown(known, wss[0])
      case Some(b) => Some(b)
      case None =>
        var r := FirstUnknownIn(known, wss[1..]);
        assert forall k :: 1 <= k < |wss| ==> wss[k] == wss[1..][k - 1];
        r
  }

  /** The bind lists of patterns, in order. */
  function PatternBinds(ps: seq<DbParse.ParsedPattern>): seq<seq<string>> {
    seq(|ps|, k requires 0 <= k < |ps| => ps[k].tag.binds)
  }

  /** The bind lists of tags, in order. */
  function TagBinds(tags: seq<DbParse.NamedTag>): seq<seq<string>> {
    seq(|tags|, k requires 0 <= k < |tags| => tags[k].binds)
  }

  /**
    The first bind of the first `n` entries of the table, in `items()`
    order and then tag by tag, that is not a key.
   */
  function FirstUnknownEntry(t: DbParse.EntityTable, n: nat): (r: Option<string>)
    requires DbParse.Numbered(t) && n <= |t.order|
    ensures r == None <==> forall j :: 0 <= j < n ==> TagBindsKnown(t, t.entries[t.order[j]].tags)
    ensures r.Some? ==> r.value !in t.entries && exists j :: 0 <= j < n && BindOf(t.entries[t.order[j]].tags, r.value)
  {
    if n == 0 then None
    else
      match FirstUnknownEntry(t, n - 1)
      case Some(b) => Some(b)
      case None =>
        var tags := t.entries[t.order[n - 1]].tags;
        assert forall k :: 0 <= k < |tags| ==> TagBinds(tags)[k] == tags[k].binds;
        FirstUnknownIn(t.entries.Keys, TagBinds(tags))
  }

  /** `ValueError` of `names.index(b)` */
  function NotInListMessage(b: string): string {
    "'" + b + "' is not in list"
  }

  /** `KeyError` of `ents[b]` */
  function KeyErrorMessage(b: string): string {
    "'" + b + "'"
  }

  /**
    The first bind of a parsed rule, pre block then post block, that is
    none of its patterns' entities: the `names.index(b)` that raises.
   */
  function MissingBind(r: DbParse.ParsedRule): (b: Option<string>)
    ensures b == None <==> BindsNamed(r)
    ensures b.Some? ==> b.value !in Subjects(r.pre + r.post)
    ensures b.Some? ==> exists k :: 0 <= k < |r.pre + r.post| && b.value in (r.pre + r.post)[k].tag.binds
  {
    var ps := r.pre + r.post;
    assert forall k :: 0 <= k < |ps| ==> PatternBinds(ps)[k] == ps[k].tag.binds;
    FirstUnknownIn((set n | n in Subjects(ps)), PatternBinds(ps))
  }

  /**
    The bind that makes loading rules raise: the missing bind of the first
    parsed rule that has one.
   */
  function FirstMissing(rs: seq<DbParse.ParsedRule>): (b: Option<string>)
    ensures b == None <==> forall k :: 0 <= k < |rs| ==> BindsNamed(rs[k])
    ensures b.Some? ==> exists k :: 0 <= k < |rs| && (forall j :: 0 <= j < k ==> BindsNamed(rs[j])) && MissingBind(rs[k]) == b
    decreases |rs|
  {
    if rs == [] then None
    else
      match MissingBind(rs[0])
      case Some(b) => Some(b)
      case None =>
        var b := FirstMissing(rs[1..]);
        assert forall k :: 1 <= k < |rs| ==> rs[1..][k - 1] == rs[k];
        if b.Some? then
          var k :| 0 <= k < |rs[1..]| && (forall j :: 0 <= j < k ==> BindsNamed(rs[1..][j])) && MissingBind(rs[1..][k]) == b;
          assert forall j :: 0 <= j < k + 1 ==> BindsNamed(rs[j]);
          b
        else b
  }

  /**
    `[create_rule(*r) for r in rules]`: each parsed rule loaded in turn,
    until the first one with a bind that names none of its entities makes
    `names.index` raise.
   */
  function CreateRules(rs: seq<DbParse.ParsedRule>): (r: Result<seq<Rule>>)
    ensures r.Ok? <==> forall k :: 0 <= k < |rs| ==> BindsNamed(rs[k])
    ensures r.Ok? ==> |r.value| == |rs| && forall k :: 0 <= k < |rs| ==> r.value[k] == CreateRule(rs[k])
    ensures r.Fail? ==> exists k :: && 0 <= k < |rs|
                                    && (forall j :: 0 <= j < k ==> BindsNamed(rs[j]))
                                    && MissingBind(rs[k]).Some?
                                    && r == Fail(NotInListMessage(MissingBind(rs[k]).value))
  {
    match FirstMissing(rs)
    case Some(b) => Fail(NotInListMessage(b))
    case None => Ok(seq(|rs|, k requires 0 <= k < |rs| => CreateRule(rs[k])))
  }

  /** Rules created one for one from parsed rules are well formed and spell back as them. */
  lemma CreatedWritten(rs: seq<DbParse.ParsedRule>, rules: seq<Rule>)
    requires |rules| == |rs| && forall k :: 0 <= k < |rs| ==> BindsNamed(rs[k]) && rules[k] == CreateRule(rs[k])
    ensures forall k :: 0 <= k < |rs| ==> WellFormed(rules[k]) && Distinct(rules[k].names) && Written(rules[k]) == rs[k]
  {
    forall k | 0 <= k < |rs| ensures Written(rules[k]) == rs[k] {
      CreateRuleWritten(rs[k]);
    }
  }

  /**
    `parse_rules(s)`: the rules `RulesRead` reads from the text, each
    loaded by `create_rule`.  Parsing comes first, so a parse error wins;
    then the first rule with a bind that names none of its entities makes
    `names.index` raise.
   */
  method ParseRules(s: string) returns (r: Result<seq<Rule>>)
    ensures match DbParse.RulesRead(s, 0, [])
      case Fail(msg) => r == Fail(msg)
      case Ok(read) =>
        if forall k :: 0 <= k < |read.value| ==> BindsNamed(read.value[k]) then
          r.Ok? && |r.value| == |read.value| && forall k :: 0 <= k < |read.value| ==> r.value[k] == CreateRule(read.value[k])
        else
          exists k :: && 0 <= k < |read.value|
                      && (forall j :: 0 <= j < k ==> BindsNamed(read.value[j]))
                      && MissingBind(read.value[k]).Some?
                      && r == Fail(NotInListMessage(MissingBind(read.value[k]).value))
    ensures s == "" ==> r == Ok([])
    ensures r.Ok? ==> forall k :: 0 <= k < |r.value| ==>
      WellFormed(r.value[k]) && Distinct(r.value[k].names) && DbParse.WellSpelledRule(Written(r.value[k]))
    ensures r.Fail? ==> DbParse.RuleError(r.msg) || exists b :: r.msg == NotInListMessage(b)
    ensures forall rs :: DbParse.PrintableRules(rs) && s == DbParse.RulesText(rs) ==>
      if forall k :: 0 <= k < |rs| ==> BindsNamed(rs[k])
      then r.Ok? && |r.value| == |rs| && forall k :: 0 <= k < |rs| ==> Written(r.value[k]) == rs[k]
      else r.Fail?
  {
    var parsed := DbParse.ParseRules(s);
    if parsed.Fail? {
      return Fail(parsed.msg);
    }
    r := CreateRules(parsed.value);
    if r.Ok? {
      CreatedWritten(parsed.value, r.value);
    }
  }

  /** Every bind of a positive pattern is one of the block's entity names: `create_entity` looks up only those. */
  predicate PositiveBindsKnown(ps: seq<DbParse.ParsedPattern>) {
    forall k, b :: 0 <= k < |ps| && ps[k].tag.sign && b in ps[k].tag.binds ==> b in DbParse.EntityNames(ps)
  }

  /** `b` is a bind of a positive pattern of `ps`. */
  predicate PositiveBind(ps: seq<DbParse.ParsedPattern>, b: string) {
    exists k :: 0 <= k < |ps| && ps[k].tag.sign && b in ps[k].tag.binds
  }

  /**
    Whether `create_entity` finds every bind of a collected table depends
    only on the patterns: it does exactly when every bind of a positive
    pattern names an entity, and a bind it looks up is one of those.
   */
  lemma CollectedBindsKnown(t: DbParse.EntityTable, ps: seq<DbParse.ParsedPattern>)
    requires DbParse.Collected(t, ps)
    ensures BindsKnown(t) <==> PositiveBindsKnown(ps)
    ensures forall n, b :: n in t.entries && BindOf(t.entries[n].tags, b) ==> PositiveBind(ps, b)
  {
    forall n | n in t.entries {
      DbParse.PositiveTagsFrom(ps, n);
    }
    if PositiveBindsKnown(ps) {
      forall n, k, i | n in t.entries && 0 <= k < |t.entries[n].tags| && 0 <= i < |t.entries[n].tags[k].binds|
        ensures t.entries[n].tags[k].binds[i] in t.entries
      {
        assert DbParse.WrittenPositive(ps, n, t.entries[n].tags[k]);
      }
    }
    if BindsKnown(t) {
      forall k, b | 0 <= k < |ps| && ps[k].tag.sign && b in ps[k].tag.binds ensures b in DbParse.EntityNames(ps) {
        var n := ps[k].entity;
        assert n in DbParse.EntityNames(ps);
        var nt := DbParse.NamedTag(ps[k].tag.name, ps[k].tag.binds);
        assert nt in t.entries[n].tags;
      }
    }
    forall n, b | n in t.entries && BindOf(t.entries[n].tags, b) ensures PositiveBind(ps, b) {
      var k :| 0 <= k < |t.entries[n].tags| && b in t.entries[n].tags[k].binds;
      assert DbParse.WrittenPositive(ps, n, t.entries[n].tags[k]);
    }
  }

  /** The bind `create_entity` fails to find in a collected table is a bind of a positive pattern that names no entity. */
  lemma MissingEntityBind(t: DbParse.EntityTable, ps: seq<DbParse.ParsedPattern>)
    requires DbParse.Collected(t, ps) && FirstUnknownEntry(t, |t.order|).Some?
    ensures var b := FirstUnknownEntry(t, |t.order|).value;
      b !in DbParse.EntityNames(ps) && PositiveBind(ps, b) && !PositiveBindsKnown(ps)
  {
    CollectedBindsKnown(t, ps);
    var b := FirstUnknownEntry(t, |t.order|).value;
    var j :| 0 <= j < |t.order| && BindOf(t.entries[t.order[j]].tags, b);
    assert PositiveBind(ps, b);
  }

  /** The entities loaded from a numbered, well-spelled table: ids are positions, names are distinct words, tags are tag names bound to positions. */
  lemma LoadedSpelled(t: DbParse.EntityTable)
    requires DbParse.Numbered(t) && BindsKnown(t) && DbParse.WellSpelledTable(t)
    ensures var pool := LoadEntities(t);
      && (forall k :: 0 <= k < |pool| ==> pool[k].id == k && pool[k].notags == {} && IsWord(pool[k].name))
      && (forall a, b :: 0 <= a < b < |pool| ==> pool[a].name != pool[b].name)
      && (forall k, tg :: 0 <= k < |pool| && tg in pool[k].tags ==> BindsBelow(tg, |pool|) && IsTagName(tg.tag))
  {
    DbParse.NumberedIndices(t);
    var pool := LoadEntities(t);
    forall k, tg | 0 <= k < |pool| && tg in pool[k].tags ensures IsTagName(tg.tag) {
      var tags := t.entries[t.order[k]].tags;
      var j :| 0 <= j < |tags| && tags[j] == SpelledTag(t.order, tg);
    }
  }

  /**
    `[create_entity(ents, k, *v) for k, v in ents.items()]` on the table
    collected from `ps`: the loaded entities when every bind of a positive
    pattern names an entity, and otherwise the `KeyError` of such a bind.
   */
  method CreateEntities(t: DbParse.EntityTable, ghost ps: seq<DbParse.ParsedPattern>) returns (r: Result<seq<Entity>>)
    requires DbParse.Collected(t, ps)
    ensures if PositiveBindsKnown(ps) then BindsKnown(t) && r == Ok(LoadEntities(t))
      else exists b :: b !in DbParse.EntityNames(ps) && PositiveBind(ps, b) && r == Fail(KeyErrorMessage(b))
  {
    var missing := FirstUnknownEntry(t, |t.order|);
    if missing.Some? {
      MissingEntityBind(t, ps);
      return Fail(KeyErrorMessage(missing.value));
    }
    CollectedBindsKnown(t, ps);
    return Ok(LoadEntities(t));
  }

  /**
    `parse_entities(s)`: the entities of a text, in the order of their
    ids, so that an entity's id is its position and a tag's bound ids are
    positions of the entities it names.  A bind of a positive tag naming no
    entity of the text makes `ents[b]` raise.
   */
  method ParseEntities(s: string) returns (r: Result<seq<Entity>>)
    ensures match DbParse.PatternsRead(s, RunEnd(s, 0, Spaces), [])
      case Fail(msg) => r == Fail(msg)
      case Ok(read) =>
        if PositiveBindsKnown(read.value) then
          r.Ok? && exists t :: DbParse.Collected(t, read.value) && BindsKnown(t) && r.value == LoadEntities(t)
        else
          exists b :: b !in DbParse.EntityNames(read.value) && PositiveBind(read.value, b) && r == Fail(KeyErrorMessage(b))
    ensures r.Ok? ==> forall k :: 0 <= k < |r.value| ==>
      r.value[k].id == k && r.value[k].notags == {} && IsWord(r.value[k].name)
    ensures r.Ok? ==> forall a, b :: 0 <= a < b < |r.value| ==> r.value[a].name != r.value[b].name
    ensures r.Ok? ==> forall k, tg :: 0 <= k < |r.value| && tg in r.value[k].tags ==>
      BindsBelow(tg, |r.value|) && IsTagName(tg.tag)
    ensures r.Fail? ==> DbParse.TagError(r.msg) || exists b :: r.msg == KeyErrorMessage(b)
    ensures forall ps :: DbParse.WellSpelledPatterns(ps) && s == DbParse.PatternsText(ps) ==>
      (r.Ok? <==> PositiveBindsKnown(ps))
  {
    var table := DbParse.ParseEntities(s);
    ghost var read := DbParse.PatternsRead(s, RunEnd(s, 0, Spaces), []);
    forall ps | DbParse.WellSpelledPatterns(ps) && s == DbParse.PatternsText(ps) ensures read == Ok(DbParse.Read(ps, |s|)) {
      DbParse.PatternsRoundTrip(ps);
    }
    if table.Fail? {
      return Fail(table.msg);
    }
    r := CreateEntities(table.value, read.value.value);
    if r.Ok? {
      LoadedSpelled(table.value);
    }
  }
}

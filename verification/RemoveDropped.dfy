/** Deciding what to take out of the repository: the packages nothing in the tree builds
    any more, unless taking them would strand a package that stays. */
module RemoveDropped {

  const MAX_REMOVALS: nat := 20

  /** What a database entry says of a package, version constraints included. */
  datatype Meta = Meta(filename: string, depends: seq<string>, provided: seq<string>)

  // ----- names without their constraints -----

  predicate IsOperator(c: char)
  {
    c == '<' || c == '>' || c == '='
  }

  /** split(op, 1)[0]: what comes before the first place op appears, or everything. */
  function Before(s: string, op: string): (before: string)
    requires op != []
    ensures before <= s
    decreases |s|
  {
    if s == [] || op <= s then []
    else [s[0]] + Before(s[1..], op)
  }

  /** A dependency without its version constraint. */
  function Bare(dependency: string): string
  {
    Before(Before(Before(Before(Before(dependency, ">="), "<="), "="), ">"), "<")
  }

  /** The name at the front of a dependency: everything before the first operator. */
  function NamePart(s: string): string
  {
    if s == [] || IsOperator(s[0]) then [] else [s[0]] + NamePart(s[1..])
  }

  lemma {:induction false} BeforeKeepsNamePart(s: string, op: string)
    requires op != [] && IsOperator(op[0])
    ensures NamePart(Before(s, op)) == NamePart(s)
    decreases |s|
  {
    if s != [] {
      if op <= s {
        assert s[0] == op[0];
      } else {
        BeforeKeepsNamePart(s[1..], op);
        assert Before(s, op)[1..] == Before(s[1..], op);
      }
    }
  }

  lemma {:induction false} BeforeOneChar(s: string, op: string)
    requires |op| == 1
    ensures op[0] !in Before(s, op)
    decreases |s|
  {
    if s != [] {
      assert s[0] == op[0] ==> s[..1] == op;
      if !(op <= s) {
        BeforeOneChar(s[1..], op);
      }
    }
  }

  lemma {:induction false} NamePartOfPlain(s: string)
    requires '<' !in s && '>' !in s && '=' !in s
    ensures NamePart(s) == s
  {
    if s != [] {
      assert s[0] in s;
      NamePartOfPlain(s[1..]);
    }
  }

  lemma PrefixKeepsOut(a: string, b: string, c: char)
    requires a <= b && c !in b
    ensures c !in a
  {
  }

  /** The five splits in a row leave exactly the name, whatever the constraint. */
  lemma BareIsTheName(dependency: string)
    ensures Bare(dependency) == NamePart(dependency)
  {
    var s1 := Before(dependency, ">=");
    var s2 := Before(s1, "<=");
    var s3 := Before(s2, "=");
    var s4 := Before(s3, ">");
    var s5 := Before(s4, "<");
    BeforeKeepsNamePart(dependency, ">=");
    BeforeKeepsNamePart(s1, "<=");
    BeforeKeepsNamePart(s2, "=");
    BeforeKeepsNamePart(s3, ">");
    BeforeKeepsNamePart(s4, "<");
    BeforeOneChar(s2, "=");
    BeforeOneChar(s3, ">");
    BeforeOneChar(s4, "<");
    hide Before;
    PrefixKeepsOut(s4, s3, '=');
    PrefixKeepsOut(s5, s4, '=');
    PrefixKeepsOut(s5, s4, '>');
    NamePartOfPlain(s5);
  }

  // ----- the plan -----

  function Names(deps: seq<string>): set<string>
  {
    set d | d in deps :: Bare(d)
  }

  /** What a package answers to. */
  function Offers(name: string, meta: Meta): set<string>
  {
    {name} + Names(meta.provided)
  }

  /** What only this package, of all that is offered, would leave another without. */
  function Stranded(live: map<string, Meta>, other: string, name: string, elsewhere: set<string>): set<string>
    requires other in live && name in live
  {
    (Names(live[other].depends) * Offers(name, live[name])) - elsewhere
  }

  datatype Refusal = StillNeeded(other: string, name: string, needs: set<string>) | TooMany(count: nat)

  function Dropped(live: map<string, Meta>, wanted: set<string>): set<string>
  {
    live.Keys - wanted
  }

  /** The one condition under which nothing is refused. */
  predicate MayDrop(live: map<string, Meta>, wanted: set<string>, elsewhere: set<string>)
  {
    && |Dropped(live, wanted)| <= MAX_REMOVALS
    && forall name, other :: name in Dropped(live, wanted) && other in live.Keys * wanted ==>
         Stranded(live, other, name, elsewhere) == {}
  }

  /** The plan for one database: what would go, and every reason not to. */
  method Plan(live: map<string, Meta>, wanted: set<string>, elsewhere: set<string>)
    returns (dropped: set<string>, refusals: seq<Refusal>)
    ensures dropped == Dropped(live, wanted)
    ensures refusals == [] <==> MayDrop(live, wanted, elsewhere)
    ensures forall r :: r in refusals && r.StillNeeded? ==> (
      r.name in dropped && r.other in live && r.other in wanted
      && r.needs == Stranded(live, r.other, r.name, elsewhere) && r.needs != {})
  {
    hide Stranded;
    dropped := live.Keys - wanted;
    refusals := [];
    var todo := dropped;
    while todo != {}
      invariant todo <= dropped
      invariant refusals == [] <==> forall name, other :: name in dropped - todo && other in live.Keys * wanted ==>
        Stranded(live, other, name, elsewhere) == {}
      invariant forall r :: r in refusals ==> (
        r.StillNeeded? && r.name in dropped && r.other in live && r.other in wanted
        && r.needs == Stranded(live, r.other, r.name, elsewhere) && r.needs != {})
    {
      var name :| name in todo;
      var found := NeededBy(live, wanted, elsewhere, name);
      refusals := refusals + found;
      todo := todo - {name};
    }
    if |dropped| > MAX_REMOVALS {
      refusals := refusals + [TooMany(|dropped|)];
    }
  }

  method NeededBy(live: map<string, Meta>, wanted: set<string>, elsewhere: set<string>, name: string)
    returns (refusals: seq<Refusal>)
    requires name in live
    ensures refusals == [] <==> forall other :: other in live.Keys * wanted ==>
      Stranded(live, other, name, elsewhere) == {}
    ensures forall r :: r in refusals ==> (
      r.StillNeeded? && r.name == name && r.other in live && r.other in wanted
      && r.needs == Stranded(live, r.other, name, elsewhere) && r.needs != {})
  {
    hide Stranded;
    refusals := [];
    var kept := live.Keys * wanted;
    var todo := kept;
    while todo != {}
      invariant todo <= kept
      invariant refusals == [] <==> forall other :: other in kept - todo ==>
        Stranded(live, other, name, elsewhere) == {}
      invariant forall r :: r in refusals ==> (
        r.StillNeeded? && r.name == name && r.other in kept
        && r.needs == Stranded(live, r.other, name, elsewhere) && r.needs != {})
    {
      var other :| other in todo;
      var needs := Stranded(live, other, name, elsewhere);
      if needs != {} {
        refusals := refusals + [StillNeeded(other, name, needs)];
      }
      todo := todo - {other};
    }
  }

  // ----- what a drop may not do -----

  /** Somebody answers to a name: another repository, or one of these packages. */
  predicate Answered(live: map<string, Meta>, names: set<string>, elsewhere: set<string>, d: string)
  {
    d in elsewhere || exists n :: n in names && n in live && d in Offers(n, live[n])
  }

  /** A drop that is not refused breaks no install: whatever a package that stays depends
      on, and could get before, it still can. */
  lemma DropStrandsNobody(live: map<string, Meta>, wanted: set<string>, elsewhere: set<string>, other: string, d: string)
    requires MayDrop(live, wanted, elsewhere)
    requires other in live && other in wanted && d in Names(live[other].depends)
    requires Answered(live, live.Keys, elsewhere, d)
    ensures Answered(live, live.Keys - Dropped(live, wanted), elsewhere, d)
  {
    hide Names, Offers;
    if d !in elsewhere {
      var n :| n in live && d in Offers(n, live[n]);
      if n in Dropped(live, wanted) {
        NeedIsStranded(live, other, n, elsewhere, d);
      } else {
        assert n in live.Keys - Dropped(live, wanted);
      }
    }
  }

  lemma NeedIsStranded(live: map<string, Meta>, other: string, name: string, elsewhere: set<string>, d: string)
    requires other in live && name in live
    requires d in Names(live[other].depends) && d in Offers(name, live[name]) && d !in elsewhere
    ensures d in Stranded(live, other, name, elsewhere)
  {
    hide Names, Offers;
  }

  /** A package that stays depends on a name that a package that goes answers to, by its own
      or by what it provides, and no other repository does. */
  ghost predicate HoldsUp(live: map<string, Meta>, wanted: set<string>, elsewhere: set<string>, stays: string,
                          goes: string, dependency: string)
  {
    && stays in live && stays in wanted && goes in live && goes !in wanted
    && dependency in live[stays].depends && NamePart(dependency) !in elsewhere
    && (NamePart(dependency) == goes || exists p :: p in live[goes].provided && NamePart(p) == NamePart(dependency))
  }

  /** A drop is refused for these two reasons only: more than twenty go, or some dependency
      holds one of them up. */
  lemma RefusedExactlyWhen(live: map<string, Meta>, wanted: set<string>, elsewhere: set<string>)
    ensures !MayDrop(live, wanted, elsewhere) <==>
      || |live.Keys - wanted| > 20
      || exists stays, goes, dependency :: HoldsUp(live, wanted, elsewhere, stays, goes, dependency)
  {
    hide Stranded, HoldsUp;
    if stays, goes :| (
      goes in Dropped(live, wanted) && stays in live.Keys * wanted && Stranded(live, stays, goes, elsewhere) != {})
    {
      var d :| d in Stranded(live, stays, goes, elsewhere);
      var dependency := StrandedHoldsUp(live, wanted, elsewhere, stays, goes, d);
    }
    if stays, goes, dependency :| HoldsUp(live, wanted, elsewhere, stays, goes, dependency) {
      HeldUpIsStranded(live, wanted, elsewhere, stays, goes, dependency);
    }
  }

  lemma StrandedHoldsUp(live: map<string, Meta>, wanted: set<string>, elsewhere: set<string>, stays: string,
                        goes: string, d: string) returns (dependency: string)
    requires stays in live && stays in wanted && goes in live && goes !in wanted
    requires d in Stranded(live, stays, goes, elsewhere)
    ensures HoldsUp(live, wanted, elsewhere, stays, goes, dependency)
  {
    hide Bare, NamePart;
    dependency :| dependency in live[stays].depends && Bare(dependency) == d;
    BareIsTheName(dependency);
    if d != goes {
      var p :| p in live[goes].provided && Bare(p) == d;
      BareIsTheName(p);
    }
  }

  lemma HeldUpIsStranded(live: map<string, Meta>, wanted: set<string>, elsewhere: set<string>, stays: string,
                         goes: string, dependency: string)
    requires HoldsUp(live, wanted, elsewhere, stays, goes, dependency)
    ensures stays in live && goes in live && stays in wanted && goes !in wanted
    ensures NamePart(dependency) in Stranded(live, stays, goes, elsewhere)
  {
    hide Bare, NamePart;
    BareIsTheName(dependency);
    if NamePart(dependency) != goes {
      var p :| p in live[goes].provided && NamePart(p) == NamePart(dependency);
      BareIsTheName(p);
    }
  }

  /** An app depends on jq; jq goes, and a gojq that provides it stays. */
  const TWO_ANSWER: map<string, Meta> :=
    map["app" := Meta("", ["jq"], []), "gojq" := Meta("", [], ["jq"]), "jq" := Meta("", [], [])]

  /** So it can be refused although nobody would be stranded: a dependency holds a package up
      even if another that stays answers to it as well. */
  lemma RefusedThoughNobodyIsStranded()
    ensures !MayDrop(TWO_ANSWER, {"app", "gojq"}, {})
    ensures forall other, d :: other in {"app", "gojq"} && d in Names(TWO_ANSWER[other].depends) ==>
      Answered(TWO_ANSWER, TWO_ANSWER.Keys - Dropped(TWO_ANSWER, {"app", "gojq"}), {}, d)
  {
    BareIsTheName("jq");
    NamePartOfPlain("jq");
    hide Bare, NamePart;
    HeldUpByName(TWO_ANSWER, {"app", "gojq"}, "app", "jq");
    hide MayDrop;
    assert "jq" in Offers("gojq", TWO_ANSWER["gojq"]) by {
      assert "jq" in TWO_ANSWER["gojq"].provided;
    }
    hide Offers;
  }

  lemma HeldUpByName(live: map<string, Meta>, wanted: set<string>, stays: string, goes: string)
    requires stays in live && stays in wanted && goes in live && goes !in wanted
    requires goes in live[stays].depends && NamePart(goes) == goes
    ensures !MayDrop(live, wanted, {})
  {
    hide NamePart, MayDrop;
    assert HoldsUp(live, wanted, {}, stays, goes, goes);
    hide HoldsUp;
    RefusedExactlyWhen(live, wanted, {});
  }
}

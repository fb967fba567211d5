/** resolve_placeholders (app.py:24-45): walks a configuration value as
    `json.load` produces it and, in every string, replaces `{{name}}` with
    the string form of the named setting, pass after pass, for as long as
    the string holds both `{{` and `}}`.

    The `while` loop of the source need not stop: a placeholder written with
    spaces (`{{ x }}`) is captured as `x`, but the text searched for is
    `{{x}}`, so the string never changes. The model bounds the loop by a
    number of passes (`fuel`) and reports `OutOfFuel` when they run out; the
    lemmas at the end show inputs on which every bound runs out.

    The `eval` the source applies to the finished string is modelled as the
    identity. */
module Resolver {
  import opened PyStr
  import opened Pattern

  /** A configuration value. An object keeps its members in insertion
      order, as a Python dict does. */
  datatype Value =
    | Obj(members: seq<Member>)
    | Arr(items: seq<Value>)
    | Str(text: string)
    | Num(n: real)
    | Bool(b: bool)
    | Null

  datatype Member = Member(key: string, val: Value)

  /** The settings placeholders refer to, each value already in the form
      `str()` gives it. */
  type Context = map<string, string>

  /** `MissingVariable` is the `ValueError` of app.py:38; `OutOfFuel` says
      the substitution loop had not stopped when its passes ran out. */
  datatype Error = MissingVariable(name: string) | OutOfFuel

  datatype Outcome<T> = Done(value: T) | Failed(error: Error)

  /** The text searched for when `name` was captured (app.py:39). */
  function Needle(name: string): string {
    "{{" + name + "}}"
  }

  /** The condition of the `while` loop (app.py:34). */
  predicate HasDelimiters(s: string) {
    Contains(s, "{{") && Contains(s, "}}")
  }

  /** The `for` loop over the captured names (app.py:36-39): each name in
      turn must be in the context, and every occurrence of its needle is
      replaced. It fails exactly when some name is missing, and then with
      the first missing name. */
  function ApplyNames(s: string, names: seq<string>, ctx: Context): (r: Outcome<string>)
    ensures r.Failed? <==> exists i :: 0 <= i < |names| && names[i] !in ctx
    ensures r.Failed? ==> r.error.MissingVariable? && r.error.name !in ctx
    ensures r.Failed? ==> exists i :: 0 <= i < |names| && names[i] == r.error.name
                                      && forall j :: 0 <= j < i ==> names[j] in ctx
    decreases |names|
  {
    if names == [] then Done(s)
    else if names[0] !in ctx then Failed(MissingVariable(names[0]))
    else
      var r := ApplyNames(Replace(s, Needle(names[0]), ctx[names[0]]), names[1..], ctx);
      assert forall i :: 1 <= i < |names| ==> names[i] == names[1..][i - 1];
      r
  }

  /** One pass of the `while` body: the names `re.findall` captures, applied
      in order. */
  function Pass(s: string, ctx: Context): Outcome<string> {
    ApplyNames(s, FindAll(s), ctx)
  }

  /** The `while` loop of app.py:34-39 run for at most `fuel` passes. A
      string without both delimiters is returned as it is; a finished string
      lacks one of them; a missing variable is one the context lacks. */
  function Substitute(s: string, ctx: Context, fuel: nat): (r: Outcome<string>)
    ensures !HasDelimiters(s) ==> r == Done(s)
    ensures r.Done? ==> !HasDelimiters(r.value)
    ensures r.Failed? && r.error.MissingVariable? ==> r.error.name !in ctx
    decreases fuel
  {
    if !HasDelimiters(s) then Done(s)
    else if fuel == 0 then Failed(OutOfFuel)
    else
      match Pass(s, ctx)
      case Done(t) => Substitute(t, ctx, fuel - 1)
      case Failed(e) => Failed(e)
  }

  /** The string branch of resolve_placeholders as the source writes it: a
      `while` loop that reassigns the string, with the `for` loop over the
      captured names inside, here allowed at most `fuel` passes. */
  method SubstituteLoop(s: string, ctx: Context, fuel: nat) returns (r: Outcome<string>)
    ensures r == Substitute(s, ctx, fuel)
  {
    var obj := s;
    var passes := fuel;
    while HasDelimiters(obj)
      invariant Substitute(obj, ctx, passes) == Substitute(s, ctx, fuel)
      decreases passes
    {
      if passes == 0 {
        return Failed(OutOfFuel);
      }
      ghost var before := obj;
      var matches := FindAll(obj);
      for i := 0 to |matches|
        invariant ApplyNames(obj, matches[i..], ctx) == Pass(before, ctx)
      {
        if matches[i] !in ctx {
          return Failed(MissingVariable(matches[i]));
        }
        assert matches[i..][1..] == matches[i + 1..];
        obj := Replace(obj, Needle(matches[i]), ctx[matches[i]]);
      }
      passes := passes - 1;
    }
    return Done(obj);
  }

  /** resolve_placeholders with at most `fuel` passes of the substitution
      loop per string (app.py:28-45). Mappings and lists are resolved member
      by member in order; the first failure is the result. */
  function Resolve(v: Value, ctx: Context, fuel: nat): Outcome<Value>
    decreases v, 1
  {
    match v
    case Obj(ms) =>
      (match ResolveMembers(ms, ctx, fuel)
       case Done(rs) => Done(Obj(rs))
       case Failed(e) => Failed(e))
    case Arr(xs) =>
      (match ResolveItems(xs, ctx, fuel)
       case Done(ys) => Done(Arr(ys))
       case Failed(e) => Failed(e))
    case Str(s) =>
      (match Substitute(s, ctx, fuel)
       case Done(t) => Done(Str(t))
       case Failed(e) => Failed(e))
    case _ => Done(v)
  }

  /** The dict comprehension of app.py:29. */
  function ResolveMembers(ms: seq<Member>, ctx: Context, fuel: nat): Outcome<seq<Member>>
    decreases ms, 0
  {
    if ms == [] then Done([])
    else
      match Resolve(ms[0].val, ctx, fuel)
      case Failed(e) => Failed(e)
      case Done(w) =>
        match ResolveMembers(ms[1..], ctx, fuel)
        case Failed(e) => Failed(e)
        case Done(rest) => Done([Member(ms[0].key, w)] + rest)
  }

  /** The list comprehension of app.py:31. */
  function ResolveItems(xs: seq<Value>, ctx: Context, fuel: nat): Outcome<seq<Value>>
    decreases xs, 0
  {
    if xs == [] then Done([])
    else
      match Resolve(xs[0], ctx, fuel)
      case Failed(e) => Failed(e)
      case Done(w) =>
        match ResolveItems(xs[1..], ctx, fuel)
        case Failed(e) => Failed(e)
        case Done(rest) => Done([w] + rest)
  }

  // ---------------------------------------------------------------------
  // The walk keeps the structure of the configuration
  // ---------------------------------------------------------------------

  /** `w` has the structure of `v`: the same keys in the same order, lists
      of the same length, strings where `v` has strings, and every other
      value as it is. */
  ghost predicate SameShape(v: Value, w: Value)
    decreases v
  {
    match v
    case Obj(ms) =>
      w.Obj? && |w.members| == |ms|
      && forall i :: 0 <= i < |ms| ==>
           w.members[i].key == ms[i].key && SameShape(ms[i].val, w.members[i].val)
    case Arr(xs) =>
      w.Arr? && |w.items| == |xs| && forall i :: 0 <= i < |xs| ==> SameShape(xs[i], w.items[i])
    case Str(_) => w.Str?
    case _ => w == v
  }

  /** The dict comprehension resolves each member's value on its own, keeps
      every key in its place, and fails with the error of the first member
      that fails. */
  lemma {:induction false} ResolveMembersPointwise(ms: seq<Member>, ctx: Context, fuel: nat)
    ensures var r := ResolveMembers(ms, ctx, fuel);
      r.Done? ==> (|r.value| == |ms|
        && forall i :: 0 <= i < |ms| ==>
             r.value[i].key == ms[i].key && Resolve(ms[i].val, ctx, fuel) == Done(r.value[i].val))
    ensures var r := ResolveMembers(ms, ctx, fuel);
      r.Failed? ==> exists i :: (0 <= i < |ms| && Resolve(ms[i].val, ctx, fuel) == Failed(r.error)
        && forall j :: 0 <= j < i ==> Resolve(ms[j].val, ctx, fuel).Done?)
    decreases |ms|
  {
    if ms != [] {
      ResolveMembersPointwise(ms[1..], ctx, fuel);
      assert forall i :: 1 <= i < |ms| ==> ms[i] == ms[1..][i - 1];
      var r := ResolveMembers(ms, ctx, fuel);
      var r1 := ResolveMembers(ms[1..], ctx, fuel);
      if r.Failed? && Resolve(ms[0].val, ctx, fuel).Done? {
        var i :| 0 <= i < |ms[1..]| && Resolve(ms[1..][i].val, ctx, fuel) == Failed(r1.error)
                 && forall j :: 0 <= j < i ==> Resolve(ms[1..][j].val, ctx, fuel).Done?;
        assert Resolve(ms[i + 1].val, ctx, fuel) == Failed(r.error);
      }
    }
  }

  /** The list comprehension resolves each item on its own, keeps the
      length and order of the list, and fails with the error of the first
      item that fails. */
  lemma {:induction false} ResolveItemsPointwise(xs: seq<Value>, ctx: Context, fuel: nat)
    ensures var r := ResolveItems(xs, ctx, fuel);
      r.Done? ==> (|r.value| == |xs|
        && forall i :: 0 <= i < |xs| ==> Resolve(xs[i], ctx, fuel) == Done(r.value[i]))
    ensures var r := ResolveItems(xs, ctx, fuel);
      r.Failed? ==> exists i :: (0 <= i < |xs| && Resolve(xs[i], ctx, fuel) == Failed(r.error)
        && forall j :: 0 <= j < i ==> Resolve(xs[j], ctx, fuel).Done?)
    decreases |xs|
  {
    if xs != [] {
      ResolveItemsPointwise(xs[1..], ctx, fuel);
      assert forall i :: 1 <= i < |xs| ==> xs[i] == xs[1..][i - 1];
      var r := ResolveItems(xs, ctx, fuel);
      var r1 := ResolveItems(xs[1..], ctx, fuel);
      if r.Failed? && Resolve(xs[0], ctx, fuel).Done? {
        var i :| 0 <= i < |xs[1..]| && Resolve(xs[1..][i], ctx, fuel) == Failed(r1.error)
                 && forall j :: 0 <= j < i ==> Resolve(xs[1..][j], ctx, fuel).Done?;
        assert Resolve(xs[i + 1], ctx, fuel) == Failed(r.error);
      }
    }
  }

  /** A resolved value has the structure of the original: mappings keep
      exactly their keys, lists their length and order, and values that are
      neither strings nor containers come back unchanged. */
  lemma {:induction false} ResolveKeepsShape(v: Value, ctx: Context, fuel: nat)
    requires Resolve(v, ctx, fuel).Done?
    ensures SameShape(v, Resolve(v, ctx, fuel).value)
    decreases v
  {
    match v
    case Obj(ms) =>
      ResolveMembersPointwise(ms, ctx, fuel);
      forall i | 0 <= i < |ms| ensures SameShape(ms[i].val, Resolve(v, ctx, fuel).value.members[i].val) {
        ResolveKeepsShape(ms[i].val, ctx, fuel);
      }
    case Arr(xs) =>
      ResolveItemsPointwise(xs, ctx, fuel);
      forall i | 0 <= i < |xs| ensures SameShape(xs[i], Resolve(v, ctx, fuel).value.items[i]) {
        ResolveKeepsShape(xs[i], ctx, fuel);
      }
    case _ =>
  }

  // ---------------------------------------------------------------------
  // Errors, results, and the number of passes
  // ---------------------------------------------------------------------

  /** On the first pass, a captured name the context lacks makes the
      substitution fail with a missing-variable error naming a captured,
      missing name; no string is produced. */
  lemma MissingOnFirstPass(s: string, ctx: Context, fuel: nat)
    requires fuel > 0 && HasDelimiters(s)
    requires exists i :: 0 <= i < |FindAll(s)| && FindAll(s)[i] !in ctx
    ensures Substitute(s, ctx, fuel).Failed?
    ensures Substitute(s, ctx, fuel).error.MissingVariable?
    ensures Substitute(s, ctx, fuel).error.name in FindAll(s)
  {
  }

  /** A missing-variable error from anywhere in the walk names a variable
      the context lacks. */
  lemma {:induction false} ResolveMissingSound(v: Value, ctx: Context, fuel: nat)
    requires Resolve(v, ctx, fuel).Failed? && Resolve(v, ctx, fuel).error.MissingVariable?
    ensures Resolve(v, ctx, fuel).error.name !in ctx
    decreases v
  {
    var e := Resolve(v, ctx, fuel).error;
    match v
    case Obj(ms) =>
      ResolveMembersPointwise(ms, ctx, fuel);
      var i :| 0 <= i < |ms| && Resolve(ms[i].val, ctx, fuel) == Failed(e);
      ResolveMissingSound(ms[i].val, ctx, fuel);
    case Arr(xs) =>
      ResolveItemsPointwise(xs, ctx, fuel);
      var i :| 0 <= i < |xs| && Resolve(xs[i], ctx, fuel) == Failed(e);
      ResolveMissingSound(xs[i], ctx, fuel);
    case _ =>
  }

  /** No string of `v` holds both `{{` and `}}`. */
  ghost predicate Settled(v: Value)
    decreases v
  {
    match v
    case Obj(ms) => forall i :: 0 <= i < |ms| ==> Settled(ms[i].val)
    case Arr(xs) => forall i :: 0 <= i < |xs| ==> Settled(xs[i])
    case Str(s) => !HasDelimiters(s)
    case _ => true
  }

  /** Whatever the walk finishes with is settled. */
  lemma {:induction false} ResolveSettles(v: Value, ctx: Context, fuel: nat)
    requires Resolve(v, ctx, fuel).Done?
    ensures Settled(Resolve(v, ctx, fuel).value)
    decreases v
  {
    var w := Resolve(v, ctx, fuel).value;
    match v
    case Obj(ms) =>
      ResolveMembersPointwise(ms, ctx, fuel);
      forall i | 0 <= i < |ms| ensures Settled(w.members[i].val) {
        ResolveSettles(ms[i].val, ctx, fuel);
      }
    case Arr(xs) =>
      ResolveItemsPointwise(xs, ctx, fuel);
      forall i | 0 <= i < |xs| ensures Settled(w.items[i]) {
        ResolveSettles(xs[i], ctx, fuel);
      }
    case _ =>
  }

  /** A settled value resolves to itself, with any number of passes. */
  lemma {:induction false} SettledIsFixed(v: Value, ctx: Context, fuel: nat)
    requires Settled(v)
    ensures Resolve(v, ctx, fuel) == Done(v)
    decreases v, 1
  {
    match v
    case Obj(ms) => SettledMembersFixed(ms, ctx, fuel);
    case Arr(xs) => SettledItemsFixed(xs, ctx, fuel);
    case _ =>
  }

  lemma {:induction false} SettledMembersFixed(ms: seq<Member>, ctx: Context, fuel: nat)
    requires forall i :: 0 <= i < |ms| ==> Settled(ms[i].val)
    ensures ResolveMembers(ms, ctx, fuel) == Done(ms)
    decreases ms, 0
  {
    if ms != [] {
      SettledIsFixed(ms[0].val, ctx, fuel);
      assert forall i :: 0 <= i < |ms[1..]| ==> ms[1..][i] == ms[i + 1];
      SettledMembersFixed(ms[1..], ctx, fuel);
      assert ms == [Member(ms[0].key, ms[0].val)] + ms[1..];
    }
  }

  lemma {:induction false} SettledItemsFixed(xs: seq<Value>, ctx: Context, fuel: nat)
    requires forall i :: 0 <= i < |xs| ==> Settled(xs[i])
    ensures ResolveItems(xs, ctx, fuel) == Done(xs)
    decreases xs, 0
  {
    if xs != [] {
      SettledIsFixed(xs[0], ctx, fuel);
      assert forall i :: 0 <= i < |xs[1..]| ==> xs[1..][i] == xs[i + 1];
      SettledItemsFixed(xs[1..], ctx, fuel);
      assert xs == [xs[0]] + xs[1..];
    }
  }

  /** Resolving is idempotent: resolving a resolved configuration again, in
      the same context, gives it back unchanged. */
  lemma ResolveIdempotent(v: Value, ctx: Context, fuel: nat, fuel': nat)
    requires Resolve(v, ctx, fuel).Done?
    ensures Resolve(Resolve(v, ctx, fuel).value, ctx, fuel') == Resolve(v, ctx, fuel)
  {
    ResolveSettles(v, ctx, fuel);
    SettledIsFixed(Resolve(v, ctx, fuel).value, ctx, fuel');
  }

  /** More passes do not change a result reached within fewer. */
  lemma {:induction false} SubstituteFuelMonotone(s: string, ctx: Context, fuel: nat, fuel': nat)
    requires fuel <= fuel' && Substitute(s, ctx, fuel) != Failed(OutOfFuel)
    ensures Substitute(s, ctx, fuel') == Substitute(s, ctx, fuel)
    decreases fuel
  {
    if HasDelimiters(s) && Pass(s, ctx).Done? {
      SubstituteFuelMonotone(Pass(s, ctx).value, ctx, fuel - 1, fuel' - 1);
    }
  }

  lemma {:induction false} ResolveFuelMonotone(v: Value, ctx: Context, fuel: nat, fuel': nat)
    requires fuel <= fuel' && Resolve(v, ctx, fuel) != Failed(OutOfFuel)
    ensures Resolve(v, ctx, fuel') == Resolve(v, ctx, fuel)
    decreases v, 1
  {
    match v
    case Obj(ms) => MembersFuelMonotone(ms, ctx, fuel, fuel');
    case Arr(xs) => ItemsFuelMonotone(xs, ctx, fuel, fuel');
    case Str(s) => SubstituteFuelMonotone(s, ctx, fuel, fuel');
    case _ =>
  }

  lemma {:induction false} MembersFuelMonotone(ms: seq<Member>, ctx: Context, fuel: nat, fuel': nat)
    requires fuel <= fuel' && ResolveMembers(ms, ctx, fuel) != Failed(OutOfFuel)
    ensures ResolveMembers(ms, ctx, fuel') == ResolveMembers(ms, ctx, fuel)
    decreases ms, 0
  {
    if ms != [] {
      ResolveFuelMonotone(ms[0].val, ctx, fuel, fuel');
      if Resolve(ms[0].val, ctx, fuel).Done? {
        MembersFuelMonotone(ms[1..], ctx, fuel, fuel');
      }
    }
  }

  lemma {:induction false} ItemsFuelMonotone(xs: seq<Value>, ctx: Context, fuel: nat, fuel': nat)
    requires fuel <= fuel' && ResolveItems(xs, ctx, fuel) != Failed(OutOfFuel)
    ensures ResolveItems(xs, ctx, fuel') == ResolveItems(xs, ctx, fuel)
    decreases xs, 0
  {
    if xs != [] {
      ResolveFuelMonotone(xs[0], ctx, fuel, fuel');
      if Resolve(xs[0], ctx, fuel).Done? {
        ItemsFuelMonotone(xs[1..], ctx, fuel, fuel');
      }
    }
  }

  /** The source call returns (or raises) on `v`: some number of passes
      suffices for every string. */
  ghost predicate Terminates(v: Value, ctx: Context) {
    exists fuel: nat :: Resolve(v, ctx, fuel) != Failed(OutOfFuel)
  }

  /** When the call returns, its outcome does not depend on the bound: any
      two bounds that suffice give the same value or the same error. */
  lemma ResolveOutcomeUnique(v: Value, ctx: Context, fuel: nat, fuel': nat)
    requires Resolve(v, ctx, fuel) != Failed(OutOfFuel)
    requires Resolve(v, ctx, fuel') != Failed(OutOfFuel)
    ensures Resolve(v, ctx, fuel) == Resolve(v, ctx, fuel')
  {
    if fuel <= fuel' {
      ResolveFuelMonotone(v, ctx, fuel, fuel');
    } else {
      ResolveFuelMonotone(v, ctx, fuel', fuel);
    }
  }

  // ---------------------------------------------------------------------
  // Strings on which the substitution loop never stops
  // ---------------------------------------------------------------------

  /** A string that has both delimiters and that a pass leaves as it is
      never finishes: every bound on the passes runs out. */
  lemma {:induction false} StuckStringLoops(s: string, ctx: Context, fuel: nat)
    requires HasDelimiters(s) && Pass(s, ctx) == Done(s)
    ensures Substitute(s, ctx, fuel) == Failed(OutOfFuel)
    decreases fuel
  {
    if fuel > 0 {
      StuckStringLoops(s, ctx, fuel - 1);
    }
  }

  /** A name the pattern captures whole: non-empty, with no whitespace
      (line breaks included) and no brace. */
  predicate PlainName(name: string) {
    name != [] && forall i :: 0 <= i < |name| ==> PlainChar(name[i])
  }

  /** A placeholder written with a space inside each pair of braces. */
  function Spaced(name: string): string {
    "{{ " + name + " }}"
  }

  /** `{{name}}` captures `name`. */
  lemma FindAllNeedle(name: string)
    requires PlainName(name)
    ensures FindAll(Needle(name)) == [name]
  {
    var s := Needle(name);
    var k := 2 + |name|;
    assert s[..2] == "{{";
    assert SkipSpace(s, 2) == 2 by {
      assert s[2] == name[0];
    }
    assert forall x :: 2 <= x < k ==> s[x] == name[x - 2];
    ScanSkipsPlain(s, 2, 2, k);
    assert SkipSpace(s, k) == k;
    assert s[2..k] == name;
    assert s[|s|..] == [];
  }

  /** `{{ name }}` captures `name` too: the pattern strips the spaces. */
  lemma FindAllSpaced(name: string)
    requires PlainName(name)
    ensures FindAll(Spaced(name)) == [name]
  {
    var s := Spaced(name);
    var k := 3 + |name|;
    assert s[..2] == "{{";
    assert SkipSpace(s, 2) == 3 by {
      assert IsSpace(s[2]) && s[3] == name[0];
    }
    assert forall x :: 3 <= x < k ==> s[x] == name[x - 3];
    ScanSkipsPlain(s, 3, 3, k);
    assert SkipSpace(s, k) == k + 1 by {
      assert IsSpace(s[k]) && s[k + 1] == '}';
    }
    assert s[3..k] == name;
    assert s[|s|..] == [];
  }

  /** The text searched for, `{{name}}`, does not occur in `{{ name }}`. */
  lemma SpacedLacksNeedle(name: string)
    requires PlainName(name)
    ensures !Contains(Spaced(name), Needle(name))
  {
    var s := Spaced(name);
    var n := Needle(name);
    assert n[2] == name[0] && n[0] == '{';
    assert !StartsWith(s, n) by {
      assert s[2] != n[2];
    }
    assert !StartsWith(s[1..], n) by {
      assert s[1..][1] == ' ';
    }
    assert !StartsWith(s[2..], n) by {
      assert s[2..][0] == ' ';
    }
    assert s[3..] == name + " }}";
    assert '{' !in s[3..] by {
      forall x | 0 <= x < |s[3..]| ensures s[3..][x] != '{' {
        if x < |name| {
          assert s[3..][x] == name[x];
        }
      }
    }
    AbsentFirstChar(s[3..], n);
    assert s[2..][1..] == s[3..];
    assert !Contains(s[2..], n);
    assert s[1..][1..] == s[2..];
    assert !Contains(s[1..], n);
  }

  /** A pass over a single captured name that the context holds replaces
      that name's needle. */
  lemma ApplyOneName(s: string, name: string, ctx: Context)
    requires name in ctx
    ensures ApplyNames(s, [name], ctx) == Done(Replace(s, Needle(name), ctx[name]))
  {
  }

  /** A string that opens with `{{` and closes with `}}` has both
      delimiters. */
  lemma Delimited(s: string)
    requires |s| >= 4 && s[..2] == "{{" && s[|s| - 2..] == "}}"
    ensures HasDelimiters(s)
  {
    assert StartsWith(s, "{{");
    assert StartsWith(s[|s| - 2..], "}}");
    ContainsAt(s, |s| - 2, "}}");
  }

  /** `{{ x }}` with `x` in the context never finishes: the pattern captures
      `x`, the loop replaces `{{x}}`, which is not there, and the string
      stays as it was. */
  lemma SpacedPlaceholderLoops(name: string, ctx: Context, fuel: nat)
    requires PlainName(name) && name in ctx
    ensures Substitute(Spaced(name), ctx, fuel) == Failed(OutOfFuel)
  {
    var s := Spaced(name);
    Delimited(s);
    FindAllSpaced(name);
    SpacedLacksNeedle(name);
    ReplaceAbsent(s, Needle(name), ctx[name]);
    ApplyOneName(s, name, ctx);
    assert Pass(s, ctx) == Done(s);
    StuckStringLoops(s, ctx, fuel);
  }

  /** Hence resolve_placeholders never returns on the string `{{ x }}`
      when `x` is defined: no bound on the passes is enough. */
  lemma SpacedPlaceholderDiverges(name: string, ctx: Context)
    requires PlainName(name) && name in ctx
    ensures !Terminates(Str(Spaced(name)), ctx)
  {
    forall fuel: nat
      ensures Resolve(Str(Spaced(name)), ctx, fuel) == Failed(OutOfFuel)
    {
      SpacedPlaceholderLoops(name, ctx, fuel);
    }
  }

  /** A setting whose value is its own placeholder never finishes. */
  lemma SelfReferenceLoops(name: string, ctx: Context, fuel: nat)
    requires PlainName(name) && name in ctx && ctx[name] == Needle(name)
    ensures Substitute(Needle(name), ctx, fuel) == Failed(OutOfFuel)
  {
    var s := Needle(name);
    Delimited(s);
    FindAllNeedle(name);
    assert s[|s|..] == [];
    assert s[..|s|] == s;
    assert Replace(s, s, s) == s + Replace([], s, s);
    assert Replace([], s, s) == [];
    assert Replace(s, Needle(name), ctx[name]) == s;
    ApplyOneName(s, name, ctx);
    StuckStringLoops(s, ctx, fuel);
  }

  /** Delimiters in the wrong order (`}}{{`) are enough for the loop
      condition, yet the pattern captures nothing: the loop never ends. */
  lemma ReversedDelimitersLoop(ctx: Context, fuel: nat)
    ensures Substitute("}}{{", ctx, fuel) == Failed(OutOfFuel)
  {
  }

  /** `{{name}}` resolves, in one pass, to the setting's value when that
      value holds no placeholder delimiters of its own. */
  lemma PlainPlaceholderResolves(name: string, ctx: Context, fuel: nat)
    requires PlainName(name) && name in ctx && !HasDelimiters(ctx[name]) && fuel >= 1
    ensures Substitute(Needle(name), ctx, fuel) == Done(ctx[name])
  {
    var s := Needle(name);
    Delimited(s);
    FindAllNeedle(name);
    assert s[|s|..] == [];
    assert s[..|s|] == s;
    assert Replace(s, s, ctx[name]) == ctx[name] + Replace([], s, ctx[name]);
    assert Replace([], s, ctx[name]) == [];
    assert Replace(s, Needle(name), ctx[name]) == ctx[name];
    ApplyOneName(s, name, ctx);
    assert Pass(s, ctx) == Done(ctx[name]);
  }

  /** `{{name}}` with `name` missing from the context fails with that name. */
  lemma PlainPlaceholderMissing(name: string, ctx: Context, fuel: nat)
    requires PlainName(name) && name !in ctx && fuel >= 1
    ensures Substitute(Needle(name), ctx, fuel) == Failed(MissingVariable(name))
  {
    var s := Needle(name);
    Delimited(s);
    FindAllNeedle(name);
  }
}

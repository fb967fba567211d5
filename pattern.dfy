/** The regular expression `{{\s*(.*?)\s*}}` that resolve_placeholders
    hands to `re.findall` (app.py:35), modelled exactly: the literal `{{`,
    a greedy run of whitespace, the shortest group of characters other than
    a line break, a greedy run of whitespace, and the literal `}}`. */
module Pattern {
  import opened PyStr
  import opened Options

  /** `\s` of Python's `re` on str patterns: the characters for which
      `str.isspace()` holds. */
  predicate IsSpace(c: char) {
    c == ' ' || ('\t' <= c <= '\r') || ('\U{1C}' <= c <= '\U{1F}')
    || c == '\U{85}' || c == '\U{A0}' || c == '\U{1680}'
    || ('\U{2000}' <= c <= '\U{200A}') || c == '\U{2028}' || c == '\U{2029}'
    || c == '\U{202F}' || c == '\U{205F}' || c == '\U{3000}'
  }

  /** Every character of `s[i..j]` is whitespace. */
  predicate SpacesBetween(s: string, i: nat, j: nat) {
    forall x :: i <= x < j && x < |s| ==> IsSpace(s[x])
  }

  /** No character of `s[i..j]` is a line break (what `.` refuses). */
  predicate NoBreakBetween(s: string, i: nat, j: nat) {
    forall x :: i <= x < j && x < |s| ==> s[x] != '\n'
  }

  /** A captured name carries no whitespace at either end. */
  predicate Stripped(name: string) {
    name == [] || (!IsSpace(name[0]) && !IsSpace(name[|name| - 1]))
  }

  /** Where a greedy `\s*` started at `k` stops: the first non-whitespace
      character at or after `k`, or the end of `s`. */
  function SkipSpace(s: string, k: nat): (b: nat)
    requires k <= |s|
    ensures k <= b <= |s| && SpacesBetween(s, k, b)
    ensures b < |s| ==> !IsSpace(s[b])
    decreases |s| - k
  {
    if k < |s| && IsSpace(s[k]) then SkipSpace(s, k + 1) else k
  }

  /** `}}` starts at `b`. */
  predicate ClosesAt(s: string, b: nat) {
    b + 2 <= |s| && s[b] == '}' && s[b + 1] == '}'
  }

  /** A match of the pattern: the group is `s[start..stop]` and the match
      ends just before `end`. */
  datatype Span = Span(start: nat, stop: nat, end: nat)

  /** Every text the pattern can match at the start of `s`, whatever way the
      regular-expression engine splits it: `{{`, whitespace up to `start`,
      the group `s[start..stop]` free of line breaks, whitespace up to
      `end - 2`, then `}}`. */
  predicate Shape(s: string, start: nat, stop: nat, end: nat) {
    2 <= start <= stop && stop + 2 <= end <= |s|
    && s[0] == '{' && s[1] == '{' && ClosesAt(s, end - 2)
    && SpacesBetween(s, 2, start) && NoBreakBetween(s, start, stop)
    && SpacesBetween(s, stop, end - 2)
  }

  /** The lazy `(.*?)` and the trailing `\s*}}`: starting from group end `k`,
      the first group end at which the rest of the pattern matches. The group
      cannot grow past a line break. */
  function Scan(s: string, a: nat, k: nat): (m: Option<Span>)
    requires a <= k <= |s|
    ensures m.Some? ==> m.value.start == a && k <= m.value.stop
    ensures m.Some? ==> m.value.stop <= |s| && m.value.end == SkipSpace(s, m.value.stop) + 2 <= |s|
    ensures m.Some? ==> ClosesAt(s, m.value.end - 2)
    decreases |s| - k
  {
    var b := SkipSpace(s, k);
    if ClosesAt(s, b) then Some(Span(a, k, b + 2))
    else if k < |s| && s[k] != '\n' then Scan(s, a, k + 1)
    else None
  }

  /** What the scan returns has the pattern's shape, and a group longer
      than where the scan began does not end in whitespace (the rest of the
      pattern would have matched one character earlier). */
  lemma {:induction false} ScanSound(s: string, a: nat, k: nat)
    requires 2 <= a <= k <= |s| && s[0] == '{' && s[1] == '{' && SpacesBetween(s, 2, a)
    requires NoBreakBetween(s, a, k)
    ensures var m := Scan(s, a, k);
      m.Some? ==> Shape(s, a, m.value.stop, m.value.end)
    ensures var m := Scan(s, a, k);
      m.Some? && m.value.stop > k ==> !IsSpace(s[m.value.stop - 1])
    decreases |s| - k
  {
    var b := SkipSpace(s, k);
    if !ClosesAt(s, b) && k < |s| && s[k] != '\n' {
      ScanSound(s, a, k + 1);
    }
  }

  /** Any text of the pattern's shape whose group ends at or after `k` lets
      the scan from `k` succeed, no later than that text ends. */
  lemma {:induction false} ScanFinds(s: string, a: nat, k: nat, st: nat, sp: nat, e: nat)
    requires a <= k <= sp
    requires NoBreakBetween(s, a, k)
    requires Shape(s, st, sp, e) && st <= a
    ensures Scan(s, a, k).Some? && Scan(s, a, k).value.end <= e
    decreases |s| - k
  {
    var b := SkipSpace(s, k);
    // `b` is the first non-space at or after `k`, and `s[e - 2]` is not a space
    assert b <= e - 2 by {
      assert !IsSpace(s[e - 2]);
    }
    if !ClosesAt(s, b) {
      ScanFinds(s, a, k + 1, st, sp, e);
    }
  }

  /** The match of the pattern at the start of `s`, which begins with `{{`:
      `None` exactly when no text of the pattern's shape starts there;
      otherwise the shortest such text, with its group stripped of
      surrounding whitespace. */
  function MatchAt(s: string): (m: Option<Span>)
    requires StartsWith(s, "{{")
    ensures m.Some? ==> Shape(s, m.value.start, m.value.stop, m.value.end)
    ensures m.Some? ==> Stripped(s[m.value.start..m.value.stop])
    ensures m.Some? ==> forall st, sp, e :: Shape(s, st, sp, e) ==> m.value.end <= e
    ensures m.None? ==> forall st, sp, e :: !Shape(s, st, sp, e)
  {
    assert s[0] == s[..2][0] && s[1] == s[..2][1];
    var a := SkipSpace(s, 2);
    var m := Scan(s, a, a);
    MatchAtFacts(s, a);
    m
  }

  lemma MatchAtFacts(s: string, a: nat)
    requires |s| >= 2 && s[0] == '{' && s[1] == '{' && a == SkipSpace(s, 2)
    ensures var m := Scan(s, a, a);
      m.Some? ==> Shape(s, m.value.start, m.value.stop, m.value.end)
    ensures var m := Scan(s, a, a);
      m.Some? ==> Stripped(s[m.value.start..m.value.stop])
    ensures var m := Scan(s, a, a);
      forall st, sp, e :: Shape(s, st, sp, e) ==> m.Some? && m.value.end <= e
  {
    var m := Scan(s, a, a);
    ScanSound(s, a, a);
    if m.Some? && m.value.stop > a {
      var name := s[m.value.start..m.value.stop];
      assert name[0] == s[a] && name[|name| - 1] == s[m.value.stop - 1];
    }
    forall st, sp, e | Shape(s, st, sp, e)
      ensures m.Some? && m.value.end <= e
    {
      ShapeFindsScan(s, a, st, sp, e);
    }
  }

  /** Any text of the pattern's shape lets the scan from the end of the
      leading whitespace succeed, no later than that text ends. */
  lemma ShapeFindsScan(s: string, a: nat, st: nat, sp: nat, e: nat)
    requires |s| >= 2 && a == SkipSpace(s, 2)
    requires Shape(s, st, sp, e)
    ensures Scan(s, a, a).Some? && Scan(s, a, a).value.end <= e
  {
    // the shape's leading whitespace is part of the greedy run
    assert st <= a;
    if a <= sp {
      ScanFinds(s, a, a, st, sp, e);
    } else {
      // the group ends inside the leading whitespace, so `}}` starts at `a`
      assert e - 2 == a;
    }
  }

  /** `re.findall` with this pattern: the groups of the matches, scanning
      left to right and resuming after each match. Every captured name is
      free of line breaks and of surrounding whitespace; a string without
      `{{` captures nothing. */
  function FindAll(s: string): (names: seq<string>)
    ensures forall i :: 0 <= i < |names| ==> Stripped(names[i]) && '\n' !in names[i]
    ensures !Contains(s, "{{") ==> names == []
    decreases |s|
  {
    if s == [] then []
    else if StartsWith(s, "{{") then
      match MatchAt(s)
      case Some(m) => [s[m.start..m.stop]] + FindAll(s[m.end..])
      case None => FindAll(s[1..])
    else FindAll(s[1..])
  }

  /** A character that is neither whitespace (line breaks included) nor a
      brace. */
  predicate PlainChar(c: char) {
    !IsSpace(c) && c != '{' && c != '}'
  }

  /** The scan walks over plain characters without stopping. */
  lemma {:induction false} ScanSkipsPlain(s: string, a: nat, k: nat, j: nat)
    requires a <= k <= j <= |s|
    requires forall x :: k <= x < j ==> PlainChar(s[x])
    ensures Scan(s, a, k) == Scan(s, a, j)
    decreases j - k
  {
    if k < j {
      assert SkipSpace(s, k) == k;
      ScanSkipsPlain(s, a, k + 1, j);
    }
  }
}

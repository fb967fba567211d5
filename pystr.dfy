/** The Python `str` operations the placeholder resolver relies on:
    substring membership (`sub in s`), `s.replace(pat, repl)`, and
    `s.split(sep)` / `sep.join(parts)`. `replace` is proved equal to
    `repl.join(s.split(pat))`, an independent description of the same
    left-to-right, non-overlapping replacement. */
module PyStr {

  /** `s` begins with `p`. */
  predicate StartsWith(s: string, p: string) {
    |p| <= |s| && s[..|p|] == p
  }

  /** `sub in s`: `sub` occurs in `s` at some offset. */
  predicate Contains(s: string, sub: string)
    decreases |s|
  {
    StartsWith(s, sub) || (|s| > 0 && Contains(s[1..], sub))
  }

  /** `s.replace(pat, repl)`: every occurrence of `pat`, found left to right
      without overlap, is replaced by `repl`. */
  function Replace(s: string, pat: string, repl: string): string
    requires pat != []
    decreases |s|
  {
    if StartsWith(s, pat) then repl + Replace(s[|pat|..], pat, repl)
    else if s == [] then []
    else [s[0]] + Replace(s[1..], pat, repl)
  }

  /** `s.split(sep)`: the pieces of `s` between the occurrences of `sep`,
      found left to right without overlap. There is at least one piece, no
      piece contains `sep`, and the first piece is a prefix of `s`. */
  function Split(s: string, sep: string): (parts: seq<string>)
    requires sep != []
    ensures |parts| >= 1
    ensures StartsWith(s, parts[0])
    ensures forall i :: 0 <= i < |parts| ==> !Contains(parts[i], sep)
    decreases |s|
  {
    if StartsWith(s, sep) then
      assert !Contains("", sep);
      [""] + Split(s[|sep|..], sep)
    else if s == [] then
      [""]
    else
      var rest := Split(s[1..], sep);
      var first := [s[0]] + rest[0];
      assert first[1..] == rest[0];
      assert |sep| <= |first| ==> first[..|sep|] == s[..|sep|];
      [first] + rest[1..]
  }

  /** `sep.join(parts)`. */
  function Join(parts: seq<string>, sep: string): string
    decreases |parts|
  {
    if parts == [] then []
    else if |parts| == 1 then parts[0]
    else parts[0] + sep + Join(parts[1..], sep)
  }

  /** Prepending text to the first piece prepends it to the joined string. */
  lemma JoinExtendFirst(c: string, parts: seq<string>, sep: string)
    requires |parts| >= 1
    ensures Join([c + parts[0]] + parts[1..], sep) == c + Join(parts, sep)
  {
    var q := [c + parts[0]] + parts[1..];
    assert q[1..] == parts[1..];
  }

  /** `replace` agrees with splitting at `pat` and joining with `repl`. So every occurrence of `pat` is replaced and the
      text between occurrences is kept as it is. */
  lemma {:induction false} ReplaceIsJoinOfSplit(s: string, pat: string, repl: string)
    requires pat != []
    ensures Replace(s, pat, repl) == Join(Split(s, pat), repl)
    decreases |s|
  {
    if StartsWith(s, pat) {
      ReplaceIsJoinOfSplit(s[|pat|..], pat, repl);
      var rest := Split(s[|pat|..], pat);
      assert ([""] + rest)[1..] == rest;
      assert Join([""] + rest, repl) == "" + repl + Join(rest, repl);
    } else if s == [] {
    } else {
      ReplaceIsJoinOfSplit(s[1..], pat, repl);
      var rest := Split(s[1..], pat);
      JoinExtendFirst([s[0]], rest, repl);
      assert Split(s, pat) == [[s[0]] + rest[0]] + rest[1..];
      assert Replace(s, pat, repl) == [s[0]] + Replace(s[1..], pat, repl);
    }
  }

  /** Splitting at `sep` and joining with `sep` gives back the input. */
  lemma {:induction false} JoinSplitRoundTrip(s: string, sep: string)
    requires sep != []
    ensures Join(Split(s, sep), sep) == s
    decreases |s|
  {
    if StartsWith(s, sep) {
      JoinSplitRoundTrip(s[|sep|..], sep);
      var rest := Split(s[|sep|..], sep);
      assert ([""] + rest)[1..] == rest;
      assert s == sep + s[|sep|..];
    } else if s == [] {
    } else {
      JoinSplitRoundTrip(s[1..], sep);
      JoinExtendFirst([s[0]], Split(s[1..], sep), sep);
      assert s == [s[0]] + s[1..];
    }
  }

  /** A string in which `pat` does not occur is left unchanged by `replace`. */
  lemma {:induction false} ReplaceAbsent(s: string, pat: string, repl: string)
    requires pat != [] && !Contains(s, pat)
    ensures Replace(s, pat, repl) == s
    decreases |s|
  {
    if s != [] {
      ReplaceAbsent(s[1..], pat, repl);
      assert s == [s[0]] + s[1..];
    }
  }

  /** A non-empty string whose first character does not occur in `s` does
      not occur in `s`. */
  lemma {:induction false} AbsentFirstChar(s: string, sub: string)
    requires sub != [] && sub[0] !in s
    ensures !Contains(s, sub)
    decreases |s|
  {
    if s != [] {
      assert s[0] != sub[0];
      assert sub[0] !in s[1..] by {
        forall i | 0 <= i < |s[1..]| ensures s[1..][i] != sub[0] {
          assert s[1..][i] == s[i + 1];
        }
      }
      AbsentFirstChar(s[1..], sub);
    }
  }

  /** An occurrence at offset `k` makes `sub in s` true. */
  lemma {:induction false} ContainsAt(s: string, k: nat, sub: string)
    requires k <= |s| && StartsWith(s[k..], sub)
    ensures Contains(s, sub)
    decreases k
  {
    if k > 0 {
      assert s[1..][k - 1..] == s[k..];
      ContainsAt(s[1..], k - 1, sub);
    }
  }
}

/** The placeholder engine of src/utils/workflowUtils.ts: `extractArguments`
    (lines 53-63) and `replaceArguments` (lines 65-74).

    A placeholder token is `{{`, then one or more characters other than `}`,
    then `}}`: the regular expression `/\{\{([^}]+)\}\}/g`. Because `[^}]+`
    is greedy and cannot cross a `}`, a match at a position is fixed by the
    first `}` after the opening braces; `TokenAt` states exactly that. */
module Template {
  import opened Common

  /** The literal token that stands for the placeholder `name`. */
  function Token(name: string): string {
    "{{" + name + "}}"
  }

  /** What the capture group `([^}]+)` can hold. */
  predicate IsArgumentName(name: string) {
    |name| > 0 && '}' !in name
  }

  // ---------------------------------------------------------------------------
  // Scanning

  /** The index of the first `}` in `s` at or after `i`, or `|s|` if there is none. */
  function CloseIndex(s: string, i: nat): (j: nat)
    requires i <= |s|
    ensures i <= j <= |s|
    ensures j < |s| ==> s[j] == '}'
    ensures forall k :: i <= k < j ==> s[k] != '}'
    decreases |s| - i
  {
    if i == |s| || s[i] == '}' then i else CloseIndex(s, i + 1)
  }

  /** Whether the token regex matches at the very start of `s`; if so, the
      index where the captured name ends (the first closing brace). */
  function TokenAt(s: string): (r: Option<nat>)
    ensures r.Some? ==> 2 < r.value && r.value + 2 <= |s|
  {
    if |s| >= 2 && s[0] == '{' && s[1] == '{' then
      var j := CloseIndex(s, 2);
      if 2 < j && j + 1 < |s| && s[j + 1] == '}' then Some(j) else None
    else None
  }

  /** A match at the start of `s` is `{{`, a well-formed name, then `}}`. */
  lemma TokenAtShape(s: string)
    requires TokenAt(s).Some?
    ensures IsArgumentName(s[2..TokenAt(s).value])
    ensures s[..TokenAt(s).value + 2] == Token(s[2..TokenAt(s).value])
  {
    var j := TokenAt(s).value;
    assert j == CloseIndex(s, 2);
    assert '}' !in s[2..j] by {
      forall k | 0 <= k < j - 2 ensures s[2..j][k] != '}' {
        assert s[2..j][k] == s[k + 2];
      }
    }
    assert s[..j + 2] == Token(s[2..j]);
  }

  /** The captured names of the successive matches of the global regex, left
      to right: after a match the scan resumes just past its `}}`, otherwise
      one character further on. */
  function Matches(s: string): seq<string>
    decreases |s|
  {
    if s == [] then []
    else
      match TokenAt(s)
      case Some(j) => [s[2..j]] + Matches(s[j + 2..])
      case None => Matches(s[1..])
  }

  /** What `extractArguments(command)` returns: the matches without repeats. */
  function ArgumentNames(command: string): seq<string> {
    Distinct(Matches(command))
  }

  /** `extractArguments`: runs the `exec` loop, `rest` being the text from the
      regex's `lastIndex` on, and then removes duplicates as
      `[...new Set(matches)]` does. */
  method ExtractArguments(command: string) returns (names: seq<string>)
    ensures names == ArgumentNames(command)
    ensures NoDups(names)
    ensures forall n :: n in names ==> IsArgumentName(n) && Contains(command, Token(n))
  {
    var matches: seq<string> := [];
    var rest := command;
    while rest != []
      invariant matches + Matches(rest) == Matches(command)
      decreases |rest|
    {
      var found := TokenAt(rest);
      if found.Some? {
        var j := found.value;
        MatchedAt(rest, j, matches, Matches(command));
        matches := matches + [rest[2..j]];
        rest := rest[j + 2..];
      } else {
        rest := rest[1..];
      }
    }
    assert matches + Matches(rest) == matches;
    names := Distinct(matches);
    ArgumentNamesAreTokens(command);
  }

  /** A match at the front of the unread text: its name moves to the matches
      found so far and the scan resumes after it. */
  lemma MatchedAt(rest: string, j: nat, matches: seq<string>, whole: seq<string>)
    requires rest != [] && TokenAt(rest) == Some(j)
    requires matches + Matches(rest) == whole
    ensures (matches + [rest[2..j]]) + Matches(rest[j + 2..]) == whole
  {
    assert Matches(rest) == [rest[2..j]] + Matches(rest[j + 2..]);
    assert (matches + [rest[2..j]]) + Matches(rest[j + 2..]) == matches + ([rest[2..j]] + Matches(rest[j + 2..]));
  }

  /** Every name `extractArguments` returns is well formed and its token
      occurs in the command. */
  lemma ArgumentNamesAreTokens(command: string)
    ensures forall n :: n in ArgumentNames(command) ==> IsArgumentName(n) && Contains(command, Token(n))
  {
    MatchesAreTokens(command);
  }

  // ---------------------------------------------------------------------------
  // Properties of the scan

  /** Every match is a well-formed name whose token occurs in the text. */
  lemma {:induction false} MatchesAreTokens(s: string)
    ensures forall n :: n in Matches(s) ==> IsArgumentName(n) && Contains(s, Token(n))
    decreases |s|
  {
    if s != [] {
      match TokenAt(s) {
        case Some(j) =>
          MatchesAreTokens(s[j + 2..]);
          TokenStep(s, j);
        case None =>
          MatchesAreTokens(s[1..]);
          SkipStep(s);
      }
    }
  }

  /** The scan step at a match: the name and every token of the rest occur in `s`. */
  lemma TokenStep(s: string, j: nat)
    requires TokenAt(s) == Some(j)
    requires forall n :: n in Matches(s[j + 2..]) ==> IsArgumentName(n) && Contains(s[j + 2..], Token(n))
    ensures forall n :: n in Matches(s) ==> IsArgumentName(n) && Contains(s, Token(n))
  {
    assert Matches(s) == [s[2..j]] + Matches(s[j + 2..]);
    TokenAtShape(s);
    forall n | n in Matches(s) ensures IsArgumentName(n) && Contains(s, Token(n)) {
      if n == s[2..j] {
        assert OccursAt(s, Token(n), 0);
      } else {
        ContainsSuffix(s, j + 2, Token(n));
      }
    }
  }

  /** The scan step past a character that starts no match. */
  lemma SkipStep(s: string)
    requires s != [] && TokenAt(s).None?
    requires forall n :: n in Matches(s[1..]) ==> IsArgumentName(n) && Contains(s[1..], Token(n))
    ensures forall n :: n in Matches(s) ==> IsArgumentName(n) && Contains(s, Token(n))
  {
    assert Matches(s) == Matches(s[1..]);
    forall n | n in Matches(s) ensures IsArgumentName(n) && Contains(s, Token(n)) {
      ContainsSuffix(s, 1, Token(n));
    }
  }

  /** The token of the well-formed name `n` starts at index `i` of `s`. */
  ghost predicate TokenOccursAt(s: string, i: int, n: string) {
    IsArgumentName(n) && OccursAt(s, Token(n), i)
  }

  /** `s` contains some placeholder token. */
  ghost predicate HasToken(s: string) {
    exists i, n :: TokenOccursAt(s, i, n)
  }

  /** A text that starts with a token is matched there, up to that token's end. */
  lemma TokenAtToken(s: string, n: string)
    requires TokenOccursAt(s, 0, n)
    ensures TokenAt(s) == Some(|n| + 2)
  {
    var t := Token(n);
    assert s[..|t|] == t;
    assert s[0] == t[0] == '{' && s[1] == t[1] == '{';
    forall k | 2 <= k < |n| + 2 ensures s[k] != '}' {
      assert s[k] == t[k] == n[k - 2];
    }
    assert s[|n| + 2] == t[|n| + 2] == '}';
    assert s[|n| + 3] == t[|n| + 3] == '}';
  }

  /** A text that contains a token yields at least one match. */
  lemma {:induction false} MatchesNonEmpty(s: string, i: nat, n: string)
    requires TokenOccursAt(s, i, n)
    ensures Matches(s) != []
    decreases |s|
  {
    if TokenAt(s).None? {
      if i == 0 {
        TokenAtToken(s, n);
      } else {
        OccursAtSuffix(s, 1, Token(n), i - 1);
        MatchesNonEmpty(s[1..], i - 1, n);
      }
    }
  }

  /** `extractArguments` returns `[]` exactly when the command has no token. */
  lemma NoArgumentsIff(command: string)
    ensures ArgumentNames(command) == [] <==> !HasToken(command)
  {
    if Matches(command) != [] {
      MatchesAreTokens(command);
      var n := Matches(command)[0];
      assert n in Matches(command);
      var i :| 0 <= i <= |command| - |Token(n)| && OccursAt(command, Token(n), i);
      assert TokenOccursAt(command, i, n);
      assert n in ArgumentNames(command);
    }
    if HasToken(command) {
      var i, n :| TokenOccursAt(command, i, n);
      MatchesNonEmpty(command, i, n);
      assert Matches(command)[0] in ArgumentNames(command);
    }
  }

  /** Text without an opening brace contributes no match. */
  lemma {:induction false} MatchesSkipPlain(a: string, x: string)
    requires '{' !in a
    ensures Matches(a + x) == Matches(x)
    decreases |a|
  {
    if a != [] {
      assert (a + x)[0] == a[0];
      assert (a + x)[1..] == a[1..] + x;
      MatchesSkipPlain(a[1..], x);
    } else {
      assert a + x == x;
    }
  }

  /** A lone opening brace contributes no match. */
  lemma MatchesSkipBrace(x: string)
    requires x == [] || x[0] != '{'
    ensures Matches("{" + x) == Matches(x)
  {
    assert ("{" + x)[1..] == x;
  }

  /** A token at the front is matched, and the scan resumes after it. */
  lemma MatchesToken(n: string, x: string)
    requires IsArgumentName(n)
    ensures Matches(Token(n) + x) == [n] + Matches(x)
  {
    var s := Token(n) + x;
    assert s[..|Token(n)|] == Token(n);
    TokenAtToken(s, n);
    assert s[2..|n| + 2] == n;
    assert s[|n| + 4..] == x;
  }

  /** Two tokens separated by brace-free text are matched in order. */
  lemma MatchesTwoTokens(a: string, x: string, b: string, y: string, c: string)
    requires IsArgumentName(x) && IsArgumentName(y)
    requires '{' !in a && '{' !in b && '{' !in c
    ensures Matches(a + Token(x) + b + Token(y) + c) == [x, y]
  {
    var s3 := Token(y) + c;
    var s2 := b + s3;
    var s1 := Token(x) + s2;
    MatchesSkipPlain(c, []);
    assert c + [] == c;
    MatchesToken(y, c);
    MatchesSkipPlain(b, s3);
    MatchesToken(x, s2);
    MatchesSkipPlain(a, s1);
    Assoc5(a, Token(x), b, Token(y), c);
  }

  /** Text in which every `{` is followed by another character that is not `{`:
      no match can start inside it. */
  predicate BraceSafe(a: string) {
    forall i :: 0 <= i < |a| && a[i] == '{' ==> i + 1 < |a| && a[i + 1] != '{'
  }

  /** Brace-safe text contributes no match, whatever follows it. */
  lemma {:induction false} MatchesSkipSafe(a: string, x: string)
    requires BraceSafe(a)
    ensures Matches(a + x) == Matches(x)
    decreases |a|
  {
    if a == [] {
      assert a + x == x;
    } else {
      var s := a + x;
      assert s[0] == a[0];
      if a[0] == '{' {
        assert s[1] == a[1];
      }
      assert TokenAt(s).None?;
      assert s[1..] == a[1..] + x;
      assert BraceSafe(a[1..]) by {
        forall i | 0 <= i < |a[1..]| && a[1..][i] == '{' ensures i + 1 < |a[1..]| && a[1..][i + 1] != '{' {
          assert a[i + 1] == '{';
        }
      }
      MatchesSkipSafe(a[1..], x);
    }
  }

  /** One lone brace between brace-free pieces keeps the text brace-safe. */
  lemma BraceSafeLone(a: string, b: string)
    requires '{' !in a && '{' !in b && b != []
    ensures BraceSafe(a + "{" + b)
  {
    var s := a + "{" + b;
    forall i | 0 <= i < |s| && s[i] == '{' ensures i + 1 < |s| && s[i + 1] != '{' {
      if i == |a| {
        assert s[i + 1] == b[0];
      }
    }
  }

  /** The text `parts[0] {{names[0]}} parts[1] ... {{names[k-1]}} parts[k]`. */
  function Interleave(parts: seq<string>, names: seq<string>): string
    requires |parts| == |names| + 1
    decreases |names|
  {
    if names == [] then parts[0]
    else parts[0] + (Token(names[0]) + Interleave(parts[1..], names[1..]))
  }

  /** Extending the text by one more token and piece, at the end. */
  lemma {:induction false} InterleaveSnoc(parts: seq<string>, names: seq<string>, n: string, p: string)
    requires |parts| == |names| + 1
    ensures Interleave(parts + [p], names + [n]) == Interleave(parts, names) + Token(n) + p
    decreases |names|
  {
    var ps, ns := parts + [p], names + [n];
    if names == [] {
      assert ps[1..] == [p] && ns[1..] == [];
    } else {
      assert ps[1..] == parts[1..] + [p] && ns[1..] == names[1..] + [n];
      InterleaveSnoc(parts[1..], names[1..], n, p);
      var r := Interleave(parts[1..], names[1..]);
      assert Interleave(ps, ns) == parts[0] + (Token(names[0]) + (r + Token(n) + p));
      assert Interleave(parts, names) == parts[0] + (Token(names[0]) + r);
      RegroupSnoc(parts[0], Token(names[0]), r, Token(n), p);
    }
  }

  lemma RegroupSnoc(a: string, b: string, r: string, t: string, p: string)
    ensures a + (b + (r + t + p)) == a + (b + r) + t + p
  {
  }

  /** A command made of brace-safe text and tokens is matched token by token:
      the scan returns exactly the names of the tokens, in order. */
  lemma {:induction false} MatchesInterleave(parts: seq<string>, names: seq<string>)
    requires |parts| == |names| + 1
    requires forall i :: 0 <= i < |parts| ==> BraceSafe(parts[i])
    requires forall i :: 0 <= i < |names| ==> IsArgumentName(names[i])
    ensures Matches(Interleave(parts, names)) == names
    decreases |names|
  {
    if names == [] {
      MatchesSkipSafe(parts[0], []);
      assert parts[0] + [] == parts[0];
    } else {
      var rest := Interleave(parts[1..], names[1..]);
      MatchesInterleave(parts[1..], names[1..]);
      MatchesToken(names[0], rest);
      MatchesSkipSafe(parts[0], Token(names[0]) + rest);
      assert names == [names[0]] + names[1..];
    }
  }

  /** Brace-safe pieces joined by the token of one name: the scan finds that
      name once per separator. */
  lemma {:induction false} MatchesJoin(parts: seq<string>, n: string)
    requires |parts| >= 1 && IsArgumentName(n)
    requires forall i :: 0 <= i < |parts| ==> BraceSafe(parts[i])
    ensures Matches(Join(parts, Token(n))) == seq(|parts| - 1, _ => n)
    decreases |parts|
  {
    if |parts| == 1 {
      MatchesSkipSafe(parts[0], []);
      assert parts[0] + [] == parts[0];
    } else {
      var t := Token(n);
      var rest := Join(parts[1..], t);
      assert Join(parts, t) == parts[0] + (t + rest);
      MatchesJoin(parts[1..], n);
      MatchesToken(n, rest);
      MatchesSkipSafe(parts[0], t + rest);
      RepeatCons(n, |parts| - 2);
    }
  }

  lemma RepeatCons(n: string, k: nat)
    ensures [n] + seq(k, _ => n) == seq(k + 1, _ => n)
  {
  }

  /** The scenario of a two-argument git command,
      `git add {{files}} && git commit -m "{{message}}"`. */
  lemma GitCommandArguments()
    ensures ArgumentNames("git add " + Token("files") + " && git commit -m \"" + Token("message") + "\"") == ["files", "message"]
  {
    GitCommandPieces();
    DistinctPair("files", "message");
  }

  lemma GitCommandPieces()
    ensures Matches("git add " + Token("files") + " && git commit -m \"" + Token("message") + "\"") == ["files", "message"]
  {
    MatchesTwoTokens("git add ", "files", " && git commit -m \"", "message", "\"");
  }

  // ---------------------------------------------------------------------------
  // Substitution

  /** A character that `new RegExp` reads literally. */
  predicate IsRegexLiteral(c: char) {
    c !in "\\^$.|?*+()[]{}"
  }

  /** A name for which ``new RegExp(`\\{\\{${name}\\}\\}`, 'g')`` matches exactly
      the text `Token(name)`. */
  predicate PlainName(name: string) {
    forall i :: 0 <= i < |name| ==> IsRegexLiteral(name[i])
  }

  /** A replacement that `String.prototype.replace` inserts verbatim: it has no
      `$` pattern. */
  predicate LiteralValue(value: string) {
    '$' !in value
  }

  /** Bindings on which the source's regex-based passes coincide with literal
      token replacement. */
  predicate PlainBindings(values: seq<(string, string)>) {
    forall i :: 0 <= i < |values| ==> PlainName(values[i].0) && LiteralValue(values[i].1)
  }

  /** One `result.replace(regex, value)` with a global regex for the literal
      text `pat`: occurrences are found left to right, each replaced by `v`,
      and the search goes on after the replaced text. */
  function ReplaceAll(s: string, pat: string, v: string): string
    requires |pat| > 0
    decreases |s|
  {
    if s == [] then []
    else if pat <= s then v + ReplaceAll(s[|pat|..], pat, v)
    else [s[0]] + ReplaceAll(s[1..], pat, v)
  }

  /** The passes of `replaceArguments` over the bindings, in order: the
      `(name, value)` entries are applied one after another, each to the
      result of the previous ones. */
  function Substituted(command: string, values: seq<(string, string)>): string
    decreases |values|
  {
    if values == [] then command
    else
      var last := values[|values| - 1];
      ReplaceAll(Substituted(command, values[..|values| - 1]), Token(last.0), last.1)
  }

  /** `replaceArguments`: the `forEach` over the entries, reassigning `result`. */
  method ReplaceArguments(command: string, values: seq<(string, string)>) returns (result: string)
    requires PlainBindings(values)
    ensures result == Substituted(command, values)
    ensures values == [] ==> result == command
  {
    result := command;
    for i := 0 to |values|
      invariant result == Substituted(command, values[..i])
    {
      var (name, value) := values[i];
      assert values[..i + 1][..i] == values[..i];
      result := ReplaceAll(result, Token(name), value);
    }
    assert values[..|values|] == values;
  }

  /** A pattern that does not occur leaves the text unchanged. */
  lemma {:induction false} ReplaceAllAbsent(s: string, pat: string, v: string)
    requires |pat| > 0 && !Contains(s, pat)
    ensures ReplaceAll(s, pat, v) == s
    decreases |s|
  {
    if s != [] {
      AbsentStep(s, pat);
      ReplaceAllAbsent(s[1..], pat, v);
      assert ReplaceAll(s, pat, v) == [s[0]] + ReplaceAll(s[1..], pat, v);
    }
  }

  /** A pattern absent from a text is not its prefix and is absent from its tail. */
  lemma AbsentStep(s: string, pat: string)
    requires s != [] && !Contains(s, pat)
    ensures !(pat <= s) && !Contains(s[1..], pat)
  {
    if pat <= s {
      assert OccursAt(s, pat, 0);
    }
    if Contains(s[1..], pat) {
      ContainsSuffix(s, 1, pat);
    }
  }

  /** No occurrence of `pat` in `a + b` starts in `a` and ends in `b`. */
  predicate NoStraddle(a: string, b: string, pat: string) {
    forall k :: 0 <= k < |a| && OccursAt(a + b, pat, k) ==> k + |pat| <= |a|
  }

  /** Replacement works piecewise across a cut that no occurrence straddles. */
  lemma {:induction false} ReplaceAllSplit(a: string, b: string, pat: string, v: string)
    requires |pat| > 0 && NoStraddle(a, b, pat)
    ensures ReplaceAll(a + b, pat, v) == ReplaceAll(a, pat, v) + ReplaceAll(b, pat, v)
    decreases |a|
  {
    if a == [] {
      assert a + b == b;
    } else if pat <= a + b {
      SplitAtMatch(a, b, pat);
      ReplaceAllSplit(a[|pat|..], b, pat, v);
      JoinAtMatch(a, b, pat, v);
    } else {
      SplitPastChar(a, b, pat);
      ReplaceAllSplit(a[1..], b, pat, v);
      JoinPastChar(a, b, pat, v);
    }
  }

  /** The step of `ReplaceAllSplit` at a match lying in `a`. */
  lemma JoinAtMatch(a: string, b: string, pat: string, v: string)
    requires |pat| > 0 && |pat| <= |a| && pat <= a && pat <= a + b
    requires (a + b)[|pat|..] == a[|pat|..] + b
    requires ReplaceAll(a[|pat|..] + b, pat, v) == ReplaceAll(a[|pat|..], pat, v) + ReplaceAll(b, pat, v)
    ensures ReplaceAll(a + b, pat, v) == ReplaceAll(a, pat, v) + ReplaceAll(b, pat, v)
  {
    var x, y := ReplaceAll(a[|pat|..], pat, v), ReplaceAll(b, pat, v);
    assert ReplaceAll(a + b, pat, v) == v + (x + y);
    assert ReplaceAll(a, pat, v) == v + x;
    assert v + (x + y) == (v + x) + y;
  }

  /** The step of `ReplaceAllSplit` at a character where no match starts. */
  lemma JoinPastChar(a: string, b: string, pat: string, v: string)
    requires |pat| > 0 && a != [] && !(pat <= a) && !(pat <= a + b)
    requires (a + b)[1..] == a[1..] + b && (a + b)[0] == a[0]
    requires ReplaceAll(a[1..] + b, pat, v) == ReplaceAll(a[1..], pat, v) + ReplaceAll(b, pat, v)
    ensures ReplaceAll(a + b, pat, v) == ReplaceAll(a, pat, v) + ReplaceAll(b, pat, v)
  {
    var x, y := ReplaceAll(a[1..], pat, v), ReplaceAll(b, pat, v);
    assert ReplaceAll(a + b, pat, v) == [a[0]] + (x + y);
    assert ReplaceAll(a, pat, v) == [a[0]] + x;
    assert [a[0]] + (x + y) == ([a[0]] + x) + y;
  }

  /** At a match that does not straddle the cut, the match lies in `a`, and
      the rest of `a` is again not straddled. */
  lemma SplitAtMatch(a: string, b: string, pat: string)
    requires |pat| > 0 && a != [] && pat <= a + b && NoStraddle(a, b, pat)
    ensures |pat| <= |a| && pat <= a && (a + b)[|pat|..] == a[|pat|..] + b
    ensures NoStraddle(a[|pat|..], b, pat)
  {
    var s := a + b;
    assert OccursAt(s, pat, 0);
    assert a[..|pat|] == s[..|pat|];
    var a' := a[|pat|..];
    assert s[|pat|..] == a' + b;
    forall k | 0 <= k < |a'| && OccursAt(a' + b, pat, k) ensures k + |pat| <= |a'| {
      OccursAtSuffix(s, |pat|, pat, k);
    }
  }

  /** Where no match starts, the cut is again not straddled one character on. */
  lemma SplitPastChar(a: string, b: string, pat: string)
    requires |pat| > 0 && a != [] && !(pat <= a + b) && NoStraddle(a, b, pat)
    ensures !(pat <= a) && (a + b)[1..] == a[1..] + b && (a + b)[0] == a[0]
    ensures NoStraddle(a[1..], b, pat)
  {
    var s := a + b;
    var a' := a[1..];
    assert s[1..] == a' + b;
    forall k | 0 <= k < |a'| && OccursAt(a' + b, pat, k) ensures k + |pat| <= |a'| {
      OccursAtSuffix(s, 1, pat, k);
    }
  }

  /** The characters of a token, by position. */
  lemma TokenChars(x: string)
    ensures |Token(x)| == |x| + 4
    ensures Token(x)[0] == '{' && Token(x)[1] == '{'
    ensures forall i :: 0 <= i < |x| ==> Token(x)[i + 2] == x[i]
    ensures Token(x)[|x| + 2] == '}' && Token(x)[|x| + 3] == '}'
  {
  }

  /** An occurrence of a plain name's token that starts before an occurrence of
      another token ends before it: the two cannot overlap. */
  lemma TokensApart(s: string, x: string, m: string, k: int, b: int)
    requires PlainName(x)
    requires OccursAt(s, Token(x), k) && OccursAt(s, Token(m), b) && k < b
    ensures k + |Token(x)| <= b
  {
    TokenChars(x);
    TokenChars(m);
    var tx := s[k..k + |Token(x)|];
    assert forall i :: 2 <= i < |x| + 4 ==> tx[i] != '{' by {
      forall i | 2 <= i < |x| + 4 ensures tx[i] != '{' {
        if i < |x| + 2 {
          assert tx[i] == x[i - 2] && IsRegexLiteral(x[i - 2]);
        }
      }
    }
    assert forall i :: k + 2 <= i < k + |x| + 4 ==> s[i] != '{' by {
      forall i | k + 2 <= i < k + |x| + 4 ensures s[i] != '{' {
        assert s[i] == tx[i - k];
      }
    }
    assert s[b] == '{' && s[b + 1] == '{' by {
      assert s[b..b + |Token(m)|][0] == s[b] && s[b..b + |Token(m)|][1] == s[b + 1];
    }
  }

  /** Two tokens of plain names that start at the same place are the same token. */
  lemma TokensAtSamePlace(s: string, x: string, m: string, k: int)
    requires PlainName(x) && PlainName(m)
    requires OccursAt(s, Token(x), k) && OccursAt(s, Token(m), k)
    ensures x == m
  {
    TokenChars(x);
    TokenChars(m);
    var tx, tm := s[k..k + |Token(x)|], s[k..k + |Token(m)|];
    assert forall j :: k + 2 <= j < k + 2 + |x| ==> s[j] != '}' by {
      forall j | k + 2 <= j < k + 2 + |x| ensures s[j] != '}' {
        assert s[j] == tx[j - k] == x[j - k - 2] && IsRegexLiteral(x[j - k - 2]);
      }
    }
    assert forall j :: k + 2 <= j < k + 2 + |m| ==> s[j] != '}' by {
      forall j | k + 2 <= j < k + 2 + |m| ensures s[j] != '}' {
        assert s[j] == tm[j - k] == m[j - k - 2] && IsRegexLiteral(m[j - k - 2]);
      }
    }
    assert s[k + |x| + 2] == tx[|x| + 2] == '}';
    assert s[k + |m| + 2] == tm[|m| + 2] == '}';
    assert |x| == |m|;
    {
      assert Token(x) == s[k..k + |Token(x)|] == Token(m);
      assert x == Token(x)[2..|x| + 2] == Token(m)[2..|m| + 2] == m;
    }
  }

  /** The token of one plain name never occurs inside the token of another. */
  lemma TokenNotInToken(x: string, m: string)
    requires PlainName(x) && PlainName(m) && x != m
    ensures !Contains(Token(m), Token(x))
  {
    var tm := Token(m);
    forall j | 0 <= j <= |tm| - |Token(x)| ensures !OccursAt(tm, Token(x), j) {
      if OccursAt(tm, Token(x), j) {
        assert OccursAt(tm, tm, 0);
        if j == 0 {
          TokensAtSamePlace(tm, x, m, 0);
        } else {
          TokensApart(tm, m, x, 0, j);
        }
        assert false;
      }
    }
  }

  /** Text without an opening brace holds no token. */
  lemma NoBraceNoToken(p: string, n: string)
    requires '{' !in p
    ensures !Contains(p, Token(n))
  {
    forall k | 0 <= k <= |p| - |Token(n)| ensures !OccursAt(p, Token(n), k) {
      assert p[k..k + |Token(n)|][0] == p[k];
    }
  }

  /** A pass over a token-free prefix, then a token: the prefix is kept, the
      token becomes the value, and the pass goes on after it. */
  lemma ReplaceAtToken(p: string, n: string, rest: string, v: string)
    requires PlainName(n) && !Contains(p, Token(n))
    ensures ReplaceAll(p + (Token(n) + rest), Token(n), v) == p + (v + ReplaceAll(rest, Token(n), v))
  {
    var t := Token(n);
    var s := p + (t + rest);
    assert OccursAt(s, t, |p|) by {
      assert s[|p|..|p| + |t|] == t;
    }
    forall k | 0 <= k < |p| && OccursAt(s, t, k) ensures k + |t| <= |p| {
      TokensApart(s, n, n, k, |p|);
    }
    ReplaceAllSplit(p, t + rest, t, v);
    ReplaceAllAbsent(p, t, v);
    assert t <= t + rest && (t + rest)[|t|..] == rest;
  }

  /** A pass replaces every occurrence of its token: if the text is the
      pieces `parts` joined by the token, and no piece contains the token,
      the pass yields the pieces joined by the value. */
  lemma {:induction false} ReplaceTokenJoin(parts: seq<string>, n: string, v: string)
    requires PlainName(n) && |parts| >= 1
    requires forall i :: 0 <= i < |parts| ==> !Contains(parts[i], Token(n))
    ensures ReplaceAll(Join(parts, Token(n)), Token(n), v) == Join(parts, v)
    decreases |parts|
  {
    if |parts| == 1 {
      ReplaceAllAbsent(parts[0], Token(n), v);
    } else {
      var t := Token(n);
      assert Join(parts, t) == parts[0] + (t + Join(parts[1..], t));
      assert Join(parts, v) == parts[0] + (v + Join(parts[1..], v));
      ReplaceAtToken(parts[0], n, Join(parts[1..], t), v);
      ReplaceTokenJoin(parts[1..], n, v);
    }
  }

  /** A pass for another plain name leaves a token of `m` in place. */
  lemma PassKeepsToken(s: string, x: string, v: string, m: string)
    requires PlainName(x) && PlainName(m) && x != m
    requires Contains(s, Token(m))
    ensures Contains(ReplaceAll(s, Token(x), v), Token(m))
  {
    var tx, tm := Token(x), Token(m);
    var k :| 0 <= k <= |s| - |tm| && OccursAt(s, tm, k);
    var a, c := s[..k], s[k + |tm|..];
    var s2 := tm + c;
    TextBeforeTokenNotStraddled(s, k, x, m);
    ReplaceAllSplit(a, s2, tx, v);
    TokenFrontNotStraddled(c, x, m);
    ReplaceAllSplit(tm, c, tx, v);
    TokenNotInToken(x, m);
    ReplaceAllAbsent(tm, tx, v);
    var ra, rc := ReplaceAll(a, tx, v), ReplaceAll(c, tx, v);
    assert ReplaceAll(s, tx, v) == ra + (tm + rc);
    KeptBetween(ra, tm, rc);
  }

  /** The text before an occurrence of a token of `m` is not straddled by a
      token of another plain name `x`. */
  lemma TextBeforeTokenNotStraddled(s: string, k: nat, x: string, m: string)
    requires PlainName(x) && PlainName(m) && x != m
    requires k + |Token(m)| <= |s| && OccursAt(s, Token(m), k)
    ensures s == s[..k] + (Token(m) + s[k + |Token(m)|..])
    ensures NoStraddle(s[..k], Token(m) + s[k + |Token(m)|..], Token(x))
  {
    var tx, a := Token(x), s[..k];
    assert s == a + (Token(m) + s[k + |Token(m)|..]);
    forall j | 0 <= j < |a| && OccursAt(s, tx, j) ensures j + |tx| <= |a| {
      TokensApart(s, x, m, j, k);
    }
  }

  /** A token of `m` at the front of a text is not straddled by a token of
      another plain name `x`. */
  lemma TokenFrontNotStraddled(c: string, x: string, m: string)
    requires PlainName(x) && PlainName(m) && x != m
    ensures NoStraddle(Token(m), c, Token(x))
  {
    var tx, tm := Token(x), Token(m);
    var s2 := tm + c;
    assert OccursAt(s2, tm, 0);
    forall j | 0 <= j < |tm| ensures !OccursAt(s2, tx, j) {
      if OccursAt(s2, tx, j) {
        if j == 0 {
          TokensAtSamePlace(s2, x, m, 0);
        } else {
          TokensApart(s2, m, x, 0, j);
        }
        assert false;
      }
    }
  }

  /** A text placed between two others still occurs in the result. */
  lemma KeptBetween(p: string, t: string, q: string)
    ensures Contains(p + (t + q), t)
  {
    var r := p + (t + q);
    assert r[|p|..|p| + |t|] == t;
    assert OccursAt(r, t, |p|);
  }

  /** A token whose name has no entry survives every pass. */
  lemma {:induction false} UnboundTokenKept(command: string, values: seq<(string, string)>, m: string)
    requires PlainBindings(values) && PlainName(m)
    requires forall i :: 0 <= i < |values| ==> values[i].0 != m
    requires Contains(command, Token(m))
    ensures Contains(Substituted(command, values), Token(m))
    decreases |values|
  {
    if values != [] {
      var init, last := values[..|values| - 1], values[|values| - 1];
      UnboundTokenKept(command, init, m);
      PassKeepsToken(Substituted(command, init), last.0, last.1, m);
    }
  }

  /** Running the bindings `a ++ b` is running `a`, then `b` on its result. */
  lemma {:induction false} SubstitutedAppend(command: string, a: seq<(string, string)>, b: seq<(string, string)>)
    ensures Substituted(command, a + b) == Substituted(Substituted(command, a), b)
    decreases |b|
  {
    if b == [] {
      assert a + b == a;
    } else {
      var b' := b[..|b| - 1];
      assert (a + b)[..|a + b| - 1] == a + b';
      assert (a + b)[|a + b| - 1] == b[|b| - 1];
      SubstitutedAppend(command, a, b');
    }
  }

  /** The passes do not commute: a value holding another entry's token is
      rewritten by that entry's later pass, and not by an earlier one. */
  lemma SubstitutionOrderMatters(a: string, b: string, x: string)
    requires PlainName(a) && PlainName(b) && a != b
    ensures Substituted(Token(a), [(a, Token(b)), (b, x)]) == x
    ensures Substituted(Token(a), [(b, x), (a, Token(b))]) == Token(b)
  {
    var ta, tb := Token(a), Token(b);
    SubstitutedTwo(ta, (a, tb), (b, x));
    SubstitutedTwo(ta, (b, x), (a, tb));
    ReplaceWhole(ta, tb);
    ReplaceWhole(tb, x);
    TokenNotInToken(b, a);
    ReplaceAllAbsent(ta, tb, x);
  }

  /** Two passes, the first entry's then the second's. */
  lemma SubstitutedTwo(command: string, e1: (string, string), e2: (string, string))
    ensures Substituted(command, [e1, e2]) == ReplaceAll(ReplaceAll(command, Token(e1.0), e1.1), Token(e2.0), e2.1)
  {
    var vs := [e1, e2];
    assert vs[..1] == [e1] && vs[..1][..0] == [];
    var once := ReplaceAll(command, Token(e1.0), e1.1);
    assert Substituted(command, [e1]) == once;
    assert Substituted(command, vs) == ReplaceAll(Substituted(command, [e1]), Token(e2.0), e2.1);
  }

  /** A text that is exactly the pattern becomes the value. */
  lemma ReplaceWhole(t: string, v: string)
    requires |t| > 0
    ensures ReplaceAll(t, t, v) == v
  {
    assert t[|t|..] == [];
  }

  /** Every occurrence is replaced: `{{a}}` twice, bound to `hi`. */
  lemma RepeatedTokenReplaced()
    ensures Substituted("echo " + Token("a") + " " + Token("a"), [("a", "hi")]) == "echo hi hi"
  {
    var parts := ["echo ", " ", ""];
    assert Join(parts, Token("a")) == "echo " + Token("a") + " " + Token("a");
    assert Join(parts, "hi") == "echo hi hi";
    forall i | 0 <= i < |parts| ensures !Contains(parts[i], Token("a")) {
      NoBraceNoToken(parts[i], "a");
    }
    ReplaceTokenJoin(parts, "a", "hi");
    var vs: seq<(string, string)> := [("a", "hi")];
    assert vs[..0] == [];
  }
}

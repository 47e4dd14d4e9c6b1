/**
 * `parseArgs`: the flags `--priority=`, `--due=` and `--sort=` become options (the last occurrence
 * of each wins) and every other token becomes part of the description. Also the first-match lookup
 * `list` makes of `--sort=`.
 */
module Args {
  import opened Optional
  import opened Text

  const PriorityFlag: string := "--priority="
  const DueFlag: string := "--due="
  const SortFlag: string := "--sort="

  /** A flag prefix: a name without `=`, followed by one `=`. */
  predicate IsFlagName(flag: string) {
    |flag| >= 1 && flag[|flag| - 1] == '=' && '=' !in flag[..|flag| - 1]
  }

  /** A token `parseArgs` takes as an option rather than as a description word. */
  predicate IsFlag(tok: string) {
    StartsWith(tok, PriorityFlag) || StartsWith(tok, DueFlag) || StartsWith(tok, SortFlag)
  }

  lemma FlagTokenHasEq(tok: string, flag: string)
    requires IsFlagName(flag) && StartsWith(tok, flag)
    ensures '=' in tok
  {
    assert tok[|flag| - 1] == tok[..|flag|][|flag| - 1];
  }

  /** `tok.split('=')[1]` for a flag token. */
  function FlagValue(tok: string): string
    requires '=' in tok
  {
    Split(tok, '=')[1]
  }

  /** The value of a flag token is its text after the prefix, up to the next `=`. */
  lemma FlagValueAfterPrefix(tok: string, flag: string)
    requires IsFlagName(flag) && StartsWith(tok, flag)
    ensures '=' in tok
    ensures FlagValue(tok) == TakeUntil(tok[|flag|..], '=')
  {
    FlagTokenHasEq(tok, flag);
    var name := flag[..|flag| - 1];
    assert tok == name + "=" + tok[|flag|..];
    SplitAfterPrefix(name, tok[|flag|..]);
  }

  /** The three recognised prefixes exclude one another. */
  lemma FlagsDisjoint(tok: string)
    ensures !(StartsWith(tok, PriorityFlag) && StartsWith(tok, DueFlag))
    ensures !(StartsWith(tok, PriorityFlag) && StartsWith(tok, SortFlag))
    ensures !(StartsWith(tok, DueFlag) && StartsWith(tok, SortFlag))
  {
    if StartsWith(tok, PriorityFlag) {
      assert tok[2] == tok[..|PriorityFlag|][2] == 'p';
    }
    if StartsWith(tok, DueFlag) {
      assert tok[2] == tok[..|DueFlag|][2] == 'd';
    }
    if StartsWith(tok, SortFlag) {
      assert tok[2] == tok[..|SortFlag|][2] == 's';
    }
  }

  /** The description words of `args`: its non-flag tokens, in order. */
  function Words(args: seq<string>): seq<string> {
    if args == [] then []
    else Words(args[..|args| - 1]) + (if IsFlag(args[|args| - 1]) then [] else [args[|args| - 1]])
  }

  /** The value of the last token of `args` that starts with `flag`, if any. */
  function LastValue(args: seq<string>, flag: string): Option<string>
    requires IsFlagName(flag)
  {
    if args == [] then None
    else
      var tok := args[|args| - 1];
      if StartsWith(tok, flag) then FlagTokenHasEq(tok, flag); Some(FlagValue(tok))
      else LastValue(args[..|args| - 1], flag)
  }

  /** The value of the first token of `args` that starts with `flag`, if any (`args.find`). */
  function FirstValue(args: seq<string>, flag: string): Option<string>
    requires IsFlagName(flag)
  {
    if args == [] then None
    else if StartsWith(args[0], flag) then FlagTokenHasEq(args[0], flag); Some(FlagValue(args[0]))
    else FirstValue(args[1..], flag)
  }

  function LowerOption(o: Option<string>): Option<string> {
    match o
    case None => None
    case Some(v) => Some(ToLower(v))
  }

  /** The `options` object; an absent property is `None`. */
  datatype Options = Options(priority: Option<string>, dueDate: Option<string>, sort: Option<string>)

  datatype ParsedArgs = ParsedArgs(taskText: string, options: Options)

  /** What `parseArgs(args)` returns. */
  function Parse(args: seq<string>): ParsedArgs {
    ParsedArgs(
      Join(Words(args)),
      Options(LowerOption(LastValue(args, PriorityFlag)), LastValue(args, DueFlag), LastValue(args, SortFlag)))
  }

  /** `parseArgs`, token by token. */
  method ParseArgs(args: seq<string>) returns (parsed: ParsedArgs)
    ensures parsed == Parse(args)
  {
    var priority: Option<string> := None;
    var dueDate: Option<string> := None;
    var sort: Option<string> := None;
    var rest: seq<string> := [];
    for i := 0 to |args|
      invariant rest == Words(args[..i])
      invariant priority == LowerOption(LastValue(args[..i], PriorityFlag))
      invariant dueDate == LastValue(args[..i], DueFlag)
      invariant sort == LastValue(args[..i], SortFlag)
    {
      var tok := args[i];
      assert args[..i + 1][..i] == args[..i] && args[..i + 1][i] == tok;
      FlagsDisjoint(tok);
      if StartsWith(tok, PriorityFlag) {
        FlagTokenHasEq(tok, PriorityFlag);
        priority := Some(ToLower(FlagValue(tok)));
      } else if StartsWith(tok, DueFlag) {
        FlagTokenHasEq(tok, DueFlag);
        dueDate := Some(FlagValue(tok));
      } else if StartsWith(tok, SortFlag) {
        FlagTokenHasEq(tok, SortFlag);
        sort := Some(FlagValue(tok));
      } else {
        rest := rest + [tok];
      }
    }
    assert args[..|args|] == args;
    parsed := ParsedArgs(Join(rest), Options(priority, dueDate, sort));
  }

  /** Description words keep their relative order: the words of a concatenation are concatenated. */
  lemma {:induction false} WordsAppend(a: seq<string>, b: seq<string>)
    ensures Words(a + b) == Words(a) + Words(b)
    decreases |b|
  {
    if b != [] {
      var b' := b[..|b| - 1];
      assert (a + b)[..|a + b| - 1] == a + b';
      WordsAppend(a, b');
    } else {
      assert a + b == a;
    }
  }

  /** A token is a description word exactly when it occurs in `args` and is not a flag. */
  lemma {:induction false} WordsMembers(args: seq<string>, tok: string)
    ensures tok in Words(args) <==> tok in args && !IsFlag(tok)
  {
    if args != [] {
      var init := args[..|args| - 1];
      assert args == init + [args[|args| - 1]];
      WordsMembers(init, tok);
    }
  }

  /** Every non-flag token is kept, once per occurrence. */
  lemma {:induction false} WordsCount(args: seq<string>, tok: string)
    ensures multiset(Words(args))[tok] == if IsFlag(tok) then 0 else multiset(args)[tok]
  {
    if args != [] {
      var init := args[..|args| - 1];
      assert args == init + [args[|args| - 1]];
      WordsCount(init, tok);
    }
  }

  /** `LastValue` is present exactly when some token carries the flag. */
  lemma {:induction false} LastValuePresent(args: seq<string>, flag: string)
    requires IsFlagName(flag)
    ensures LastValue(args, flag).Some? <==> exists i :: 0 <= i < |args| && StartsWith(args[i], flag)
  {
    if args != [] {
      var n := |args| - 1;
      var init := args[..n];
      LastValuePresent(init, flag);
      if !StartsWith(args[n], flag) && exists i :: 0 <= i < |args| && StartsWith(args[i], flag) {
        var i :| 0 <= i < |args| && StartsWith(args[i], flag);
        assert init[i] == args[i];
      }
    }
  }

  /** The last occurrence wins: `LastValue` is the value of a token after which no token carries the flag. */
  lemma {:induction false} LastValueIsLast(args: seq<string>, flag: string)
    requires IsFlagName(flag)
    requires LastValue(args, flag).Some?
    ensures exists i :: (0 <= i < |args| && StartsWith(args[i], flag) && '=' in args[i] &&
                         LastValue(args, flag).value == FlagValue(args[i]) &&
                         forall j :: i < j < |args| ==> !StartsWith(args[j], flag))
  {
    var n := |args| - 1;
    if StartsWith(args[n], flag) {
      FlagTokenHasEq(args[n], flag);
      assert StartsWith(args[n], flag) && '=' in args[n] && LastValue(args, flag).value == FlagValue(args[n]);
    } else {
      var init := args[..n];
      LastValueIsLast(init, flag);
      var i :| 0 <= i < |init| && StartsWith(init[i], flag) && '=' in init[i] &&
        LastValue(init, flag).value == FlagValue(init[i]) &&
        forall j :: i < j < |init| ==> !StartsWith(init[j], flag);
      assert args[i] == init[i];
      forall j | i < j < |args| ensures !StartsWith(args[j], flag) {
        if j < n { assert args[j] == init[j]; }
      }
    }
  }

  /**
   * The first occurrence wins: `FirstValue` is present exactly when some token carries the flag, and is
   * then the value of a token before which no token carries it.
   */
  lemma {:induction false} FirstValueSpec(args: seq<string>, flag: string)
    requires IsFlagName(flag)
    ensures FirstValue(args, flag).Some? <==> exists i :: 0 <= i < |args| && StartsWith(args[i], flag)
    ensures FirstValue(args, flag).Some? ==>
      exists i :: 0 <= i < |args| && StartsWith(args[i], flag) && '=' in args[i] &&
        FirstValue(args, flag).value == FlagValue(args[i]) &&
        forall j :: 0 <= j < i ==> !StartsWith(args[j], flag)
  {
    if args != [] {
      var tail := args[1..];
      FirstValueSpec(tail, flag);
      if StartsWith(args[0], flag) {
        FlagTokenHasEq(args[0], flag);
      } else {
        if exists i :: 0 <= i < |args| && StartsWith(args[i], flag) {
          var i :| 0 <= i < |args| && StartsWith(args[i], flag);
          assert tail[i - 1] == args[i];
        }
        if FirstValue(tail, flag).Some? {
          var i :| 0 <= i < |tail| && StartsWith(tail[i], flag) && '=' in tail[i] &&
            FirstValue(tail, flag).value == FlagValue(tail[i]) &&
            forall j :: 0 <= j < i ==> !StartsWith(tail[j], flag);
          assert args[i + 1] == tail[i];
          forall j | 0 <= j < i + 1 ensures !StartsWith(args[j], flag) {
            if j > 0 { assert args[j] == tail[j - 1]; }
          }
        }
      }
    }
  }

  /** Splitting the description at spaces gives back the words, when no word holds a space. */
  lemma DescriptionSplitsIntoWords(args: seq<string>)
    requires Words(args) != []
    requires forall i :: 0 <= i < |args| ==> ' ' !in args[i]
    ensures Split(Parse(args).taskText, ' ') == Words(args)
  {
    var ws := Words(args);
    forall i | 0 <= i < |ws| ensures ' ' !in ws[i] {
      WordsMembers(args, ws[i]);
    }
    SplitJoin(ws);
  }

  /** The two lookups disagree when `--sort=` is repeated: `parseArgs` keeps the last, `list` the first. */
  lemma SortLookupsDiffer(first: string, second: string)
    requires '=' !in first && '=' !in second
    ensures FirstValue([SortFlag + first, SortFlag + second], SortFlag) == Some(first)
    ensures Parse([SortFlag + first, SortFlag + second]).options.sort == Some(second)
  {
    var a, b := SortFlag + first, SortFlag + second;
    assert StartsWith(a, SortFlag) && StartsWith(b, SortFlag);
    FlagValueAfterPrefix(a, SortFlag);
    FlagValueAfterPrefix(b, SortFlag);
    assert a[|SortFlag|..] == first && b[|SortFlag|..] == second;
    TakeUntilAll(first, '=');
    TakeUntilAll(second, '=');
  }

  /** Without any flag token, every token is a description word. */
  lemma {:induction false} WordsAll(words: seq<string>)
    requires forall i :: 0 <= i < |words| ==> !IsFlag(words[i])
    ensures Words(words) == words
  {
    if words != [] {
      var init := words[..|words| - 1];
      WordsAll(init);
    }
  }

  /** Without any flag token, `--priority=` and `--due=` stay unset. */
  lemma NoFlagNoValue(words: seq<string>, flag: string)
    requires flag == PriorityFlag || flag == DueFlag
    requires forall i :: 0 <= i < |words| ==> !IsFlag(words[i])
    ensures LastValue(words, flag) == None
  {
    LastValuePresent(words, flag);
  }
}

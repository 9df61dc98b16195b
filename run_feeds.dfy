/**
 * The batch runner: parsing `--feeds` values into feed names, running the
 * named generators one after another, sorting each name into the successes
 * or the failures, and turning that into the process exit status.
 */
module RunFeeds {
  import opened Options
  import opened Strings

  /** The outcome of calling a registered generator's entry point. */
  datatype RunnerResult =
    | ReturnedFalse  // the call returned exactly `False`
    | ReturnedOther  // it returned anything else, `None` included
    | Raised         // it raised an exception

  /** The keys of `FEED_RUNNERS`, in registration order. */
  const FeedRunnerNames: seq<string> := [
    "anthropic_news_blog", "anthropic_eng_blog", "anthropic_research_blog",
    "anthropic_changelog_claude_code", "anthropic_red_blog", "openai_research_blog",
    "ollama_blog", "paulgraham_blog", "blogsurgeai_feed_generator", "xainews_blog",
    "meta_blog", "generalist_blog", "chanderramesh_blog", "thinkingmachines_blog",
    "hamel_blog", "windsurf_blog", "windsurf_changelog", "windsurf_next_changelog"]

  /** The registry: each registered name mapped to what calling its runner does. */
  function Registry(outcome: string -> RunnerResult): (reg: map<string, RunnerResult>)
    ensures reg.Keys == set n | n in FeedRunnerNames
    ensures forall n :: n in reg ==> reg[n] == outcome(n)
  {
    map n | n in FeedRunnerNames :: outcome(n)
  }

  // ---------------------------------------------------------------------
  // parse_feed_names

  /** A token `parse_feed_names` can produce: non-empty, no comma, no whitespace at either end. */
  predicate CleanName(t: string) {
    t != [] && ',' !in t && !IsSpace(t[0]) && !IsSpace(t[|t| - 1])
  }

  /** The non-empty images under `f` of `parts`, in order. */
  function MapNonEmpty(f: string -> string, parts: seq<string>): (r: seq<string>)
    ensures |r| <= |parts|
  {
    if parts == [] then []
    else
      var s := f(parts[|parts| - 1]);
      MapNonEmpty(f, parts[..|parts| - 1]) + (if s != [] then [s] else [])
  }

  lemma MapNonEmptyStep(f: string -> string, acc: seq<string>, parts: seq<string>, k: nat, parsed: seq<string>)
    requires k < |parts|
    requires parsed == acc + MapNonEmpty(f, parts[..k])
    ensures (if f(parts[k]) != [] then parsed + [f(parts[k])] else parsed) == acc + MapNonEmpty(f, parts[..k + 1])
  {
    assert parts[..k + 1][..k] == parts[..k];
  }

  /** The stripped comma-parts that are not blank, in order. */
  function KeptParts(parts: seq<string>): (names: seq<string>)
    ensures |names| <= |parts|
  {
    MapNonEmpty(Strip, parts)
  }

  lemma StripKeepsOut(s: string, c: char)
    requires c !in s
    ensures c !in Strip(s)
  {
    TrimRemovesOnlyEnds(s, IsSpace, LeadingRun(s, IsSpace));
  }

  /** A non-blank stripped comma-part is a clean name. */
  lemma StrippedClean(p: string)
    requires ',' !in p && Strip(p) != []
    ensures CleanName(Strip(p))
  {
    StripKeepsOut(p, ',');
  }

  lemma {:induction false} KeptPartsClean(parts: seq<string>)
    requires forall i :: 0 <= i < |parts| ==> ',' !in parts[i]
    ensures forall i :: 0 <= i < |KeptParts(parts)| ==> CleanName(KeptParts(parts)[i])
  {
    if parts != [] {
      var init, last := parts[..|parts| - 1], parts[|parts| - 1];
      KeptPartsClean(init);
      assert KeptParts(parts) == KeptParts(init) + (if Strip(last) != [] then [Strip(last)] else []);
      if Strip(last) != [] {
        StrippedClean(last);
      }
    }
  }

  /** The names one `--feeds` value contributes: none for an empty value, else its comma-parts. */
  function NamesIn(arg: string): seq<string> {
    if arg == [] then [] else KeptParts(Split(arg, ','))
  }

  /** The concatenation of `f` over `args`, in order. */
  function FlatMap(f: string -> seq<string>, args: seq<string>): seq<string> {
    if args == [] then [] else FlatMap(f, args[..|args| - 1]) + f(args[|args| - 1])
  }

  /** The names all values contribute, value by value. */
  function ParsedNames(args: seq<string>): seq<string> {
    FlatMap(NamesIn, args)
  }

  /** Every name `parse_feed_names` produces is non-empty, comma-free and has no whitespace at either end. */
  lemma {:induction false} ParsedNamesClean(args: seq<string>)
    ensures forall i :: 0 <= i < |ParsedNames(args)| ==> CleanName(ParsedNames(args)[i])
  {
    if args != [] {
      var init, last := args[..|args| - 1], args[|args| - 1];
      ParsedNamesClean(init);
      assert ParsedNames(args) == ParsedNames(init) + NamesIn(last);
      if last != [] {
        var parts := Split(last, ',');
        KeptPartsClean(parts);
      }
    }
  }

  /** `parse_feed_names`: the outer loop over the values. */
  method ParseFeedNames(rawNames: seq<string>) returns (parsed: seq<string>)
    ensures parsed == ParsedNames(rawNames)
    ensures forall i :: 0 <= i < |parsed| ==> CleanName(parsed[i])
  {
    parsed := [];
    for i := 0 to |rawNames|
      invariant parsed == ParsedNames(rawNames[..i])
    {
      var name := rawNames[i];
      ParsedNamesStep(rawNames, i);
      if name == [] {
        continue;
      }
      parsed := AppendKeptParts(parsed, Split(name, ','));
    }
    assert rawNames[..|rawNames|] == rawNames;
    ParsedNamesClean(rawNames);
  }

  /** The inner loop of `parse_feed_names`: appends the non-blank stripped comma-parts of one value. */
  method AppendKeptParts(acc: seq<string>, parts: seq<string>) returns (parsed: seq<string>)
    ensures parsed == acc + KeptParts(parts)
  {
    parsed := acc;
    for k := 0 to |parts|
      invariant parsed == acc + MapNonEmpty(Strip, parts[..k])
    {
      var stripped := Strip(parts[k]);
      MapNonEmptyStep(Strip, acc, parts, k, parsed);
      if stripped != [] {
        parsed := parsed + [stripped];
      }
    }
    assert parts[..|parts|] == parts;
  }

  lemma ParsedNamesStep(args: seq<string>, i: nat)
    requires i < |args|
    ensures ParsedNames(args[..i + 1]) == ParsedNames(args[..i]) + NamesIn(args[i])
  {
    assert args[..i + 1][..i] == args[..i];
  }

  lemma {:induction false} FlatMapAppend(f: string -> seq<string>, a: seq<string>, b: seq<string>)
    ensures FlatMap(f, a + b) == FlatMap(f, a) + FlatMap(f, b)
    decreases |b|
  {
    if b == [] {
      assert a + b == a;
    } else {
      var init := b[..|b| - 1];
      assert (a + b)[..|a + b| - 1] == a + init;
      FlatMapAppend(f, a, init);
    }
  }

  lemma FlatMapSingle(f: string -> seq<string>, x: string)
    ensures FlatMap(f, [x]) == f(x)
  {
    assert [x][..0] == [];
  }

  /** Values are parsed independently and their names concatenated in order. */
  lemma ParsedNamesAppend(a: seq<string>, b: seq<string>)
    ensures ParsedNames(a + b) == ParsedNames(a) + ParsedNames(b)
  {
    FlatMapAppend(NamesIn, a, b);
  }

  /** A value without commas is one name, internal whitespace kept: `"a b"` stays `"a b"`. */
  lemma NamesInWithoutComma(arg: string)
    requires ',' !in arg && Strip(arg) != []
    ensures NamesIn(arg) == [Strip(arg)]
  {
    assert Split(arg, ',') == [arg];
    assert KeptParts([arg]) == KeptParts([]) + [Strip(arg)];
  }

  /** Blank-only values contribute nothing. */
  lemma NamesInBlank(arg: string)
    requires AllSatisfy(arg, IsSpace)
    ensures NamesIn(arg) == []
  {
    if arg != [] {
      assert ',' !in arg by {
        assert forall i :: 0 <= i < |arg| ==> IsSpace(arg[i]);
      }
      assert Split(arg, ',') == [arg];
      StripBlank(arg);
    }
  }

  lemma StripBlank(s: string)
    requires AllSatisfy(s, IsSpace)
    ensures Strip(s) == []
  {
  }

  lemma {:induction false} FlatMapSingletons(f: string -> seq<string>, names: seq<string>)
    requires forall i :: 0 <= i < |names| ==> f(names[i]) == [names[i]]
    ensures FlatMap(f, names) == names
  {
    if names != [] {
      var init, last := names[..|names| - 1], names[|names| - 1];
      forall i | 0 <= i < |init| ensures f(init[i]) == [init[i]] {
        assert init[i] == names[i];
      }
      FlatMapSingletons(f, init);
      assert f(last) == [last];
      calc {
        FlatMap(f, names);
        FlatMap(f, init) + f(last);
        init + [last];
        { assert names == init + [last]; }
        names;
      }
    }
  }

  /** A clean name given as a value of its own comes back unchanged. */
  lemma NamesInOfClean(t: string)
    requires CleanName(t)
    ensures NamesIn(t) == [t]
  {
    TrimUnchanged(t, IsSpace);
    NamesInWithoutComma(t);
  }

  /** Clean names survive being passed one per value. */
  lemma ParsedNamesOfClean(names: seq<string>)
    requires forall i :: 0 <= i < |names| ==> CleanName(names[i])
    ensures ParsedNames(names) == names
  {
    forall i | 0 <= i < |names| ensures NamesIn(names[i]) == [names[i]] {
      NamesInOfClean(names[i]);
    }
    FlatMapSingletons(NamesIn, names);
  }

  /** Clean names survive being joined with commas into one value. */
  lemma {:induction false} KeptPartsOfClean(names: seq<string>)
    requires forall i :: 0 <= i < |names| ==> CleanName(names[i])
    ensures KeptParts(names) == names
  {
    if names != [] {
      var init, last := names[..|names| - 1], names[|names| - 1];
      KeptPartsOfClean(init);
      TrimUnchanged(last, IsSpace);
      assert Strip(last) == last;
      assert KeptParts(names) == KeptParts(init) + [last];
      assert names == init + [last];
    }
  }

  /** Clean names joined with commas into one value are parsed back into the same names. */
  lemma CommaJoinedNames(names: seq<string>)
    requires names != [] && forall i :: 0 <= i < |names| ==> CleanName(names[i])
    ensures ParsedNames([Join(names, ",")]) == names
  {
    var joined := Join(names, ",");
    assert forall p :: p in names ==> ',' !in p;
    SplitJoin(names, ',');
    JoinNonEmpty(names, ",");
    ParsedNamesOfSplit(joined, names);
  }

  lemma ParsedNamesOfSplit(joined: string, names: seq<string>)
    requires joined != [] && Split(joined, ',') == names
    requires forall i :: 0 <= i < |names| ==> CleanName(names[i])
    ensures ParsedNames([joined]) == names
  {
    KeptPartsOfClean(names);
    FlatMapSingle(NamesIn, joined);
  }

  lemma {:induction false} JoinNonEmpty(parts: seq<string>, sep: string)
    requires parts != [] && parts[0] != []
    ensures Join(parts, sep) != []
  {
  }

  // ---------------------------------------------------------------------
  // run_selected_feeds

  /** A name counts as a success exactly when it is registered and its runner returned something other than `False`. */
  predicate Succeeds(reg: map<string, RunnerResult>, name: string) {
    name in reg && reg[name] == ReturnedOther
  }

  function Successes(reg: map<string, RunnerResult>, feeds: seq<string>): (r: seq<string>)
    ensures |r| <= |feeds|
  {
    if feeds == [] then []
    else
      var last := feeds[|feeds| - 1];
      Successes(reg, feeds[..|feeds| - 1]) + (if Succeeds(reg, last) then [last] else [])
  }

  function Failures(reg: map<string, RunnerResult>, feeds: seq<string>): (r: seq<string>)
    ensures |r| <= |feeds|
  {
    if feeds == [] then []
    else
      var last := feeds[|feeds| - 1];
      Failures(reg, feeds[..|feeds| - 1]) + (if Succeeds(reg, last) then [] else [last])
  }

  /** The names whose runner is called, in call order: the registered ones. */
  function Invoked(reg: map<string, RunnerResult>, feeds: seq<string>): (r: seq<string>)
    ensures forall n :: n in r ==> n in reg
  {
    if feeds == [] then []
    else
      var last := feeds[|feeds| - 1];
      Invoked(reg, feeds[..|feeds| - 1]) + (if last in reg then [last] else [])
  }

  /** `run_selected_feeds`: runs each feed in order and returns the two lists, the calls made and the exit status. */
  method RunSelectedFeeds(feeds: seq<string>, reg: map<string, RunnerResult>)
    returns (successes: seq<string>, failures: seq<string>, invoked: seq<string>, exitCode: int)
    ensures successes == Successes(reg, feeds)
    ensures failures == Failures(reg, feeds)
    ensures invoked == Invoked(reg, feeds)
    ensures exitCode == (if failures == [] then 0 else 1)
  {
    successes, failures, invoked := [], [], [];
    for i := 0 to |feeds|
      invariant successes == Successes(reg, feeds[..i])
      invariant failures == Failures(reg, feeds[..i])
      invariant invoked == Invoked(reg, feeds[..i])
    {
      assert feeds[..i + 1][..i] == feeds[..i];
      var feed := feeds[i];
      if feed !in reg {
        failures := failures + [feed];
        continue;
      }
      invoked := invoked + [feed];
      var result := reg[feed];
      match result
      case ReturnedFalse =>
        failures := failures + [feed];
      case ReturnedOther =>
        successes := successes + [feed];
      case Raised =>
        failures := failures + [feed];
    }
    assert feeds[..|feeds|] == feeds;
    exitCode := if failures == [] then 0 else 1;
  }

  /** Every requested name lands in exactly one list: the two lists split the request. */
  lemma {:induction false} SuccessesFailuresPartition(reg: map<string, RunnerResult>, feeds: seq<string>)
    ensures multiset(Successes(reg, feeds)) + multiset(Failures(reg, feeds)) == multiset(feeds)
    ensures |Successes(reg, feeds)| + |Failures(reg, feeds)| == |feeds|
  {
    if feeds != [] {
      var init, last := feeds[..|feeds| - 1], feeds[|feeds| - 1];
      SuccessesFailuresPartition(reg, init);
      LastOutcome(reg, feeds);
      SnocMultiset(feeds);
    }
    assert |multiset(Successes(reg, feeds))| == |Successes(reg, feeds)|;
    assert |multiset(Failures(reg, feeds))| == |Failures(reg, feeds)|;
  }

  lemma SnocMultiset(feeds: seq<string>)
    requires feeds != []
    ensures multiset(feeds) == multiset(feeds[..|feeds| - 1]) + multiset{feeds[|feeds| - 1]}
  {
    assert feeds == feeds[..|feeds| - 1] + [feeds[|feeds| - 1]];
  }

  /** The last requested name goes to exactly one of the two lists. */
  lemma LastOutcome(reg: map<string, RunnerResult>, feeds: seq<string>)
    requires feeds != []
    ensures var init, last := feeds[..|feeds| - 1], feeds[|feeds| - 1];
            multiset(Successes(reg, feeds)) + multiset(Failures(reg, feeds))
            == multiset(Successes(reg, init)) + multiset(Failures(reg, init)) + multiset{last}
  {
  }

  /** The successes are names whose runner returned something other than `False`; the failures are the rest. */
  lemma {:induction false} OutcomesSorted(reg: map<string, RunnerResult>, feeds: seq<string>)
    ensures forall n :: n in Successes(reg, feeds) ==> Succeeds(reg, n)
    ensures forall n :: n in Failures(reg, feeds) ==> !Succeeds(reg, n)
  {
    if feeds != [] {
      OutcomesSorted(reg, feeds[..|feeds| - 1]);
    }
  }

  /** The successes keep the request order, and a repeated name is handled again on each occurrence. */
  lemma {:induction false} SuccessesAppend(reg: map<string, RunnerResult>, a: seq<string>, b: seq<string>)
    ensures Successes(reg, a + b) == Successes(reg, a) + Successes(reg, b)
    decreases |b|
  {
    if b == [] {
      assert a + b == a;
    } else {
      var init := b[..|b| - 1];
      assert (a + b)[..|a + b| - 1] == a + init;
      SuccessesAppend(reg, a, init);
    }
  }

  /** The failures keep the request order, one entry per failing occurrence. */
  lemma {:induction false} FailuresAppend(reg: map<string, RunnerResult>, a: seq<string>, b: seq<string>)
    ensures Failures(reg, a + b) == Failures(reg, a) + Failures(reg, b)
    decreases |b|
  {
    if b == [] {
      assert a + b == a;
    } else {
      var init := b[..|b| - 1];
      assert (a + b)[..|a + b| - 1] == a + init;
      FailuresAppend(reg, a, init);
    }
  }

  /** The runners are called in request order, once per registered occurrence. */
  lemma {:induction false} InvokedAppend(reg: map<string, RunnerResult>, a: seq<string>, b: seq<string>)
    ensures Invoked(reg, a + b) == Invoked(reg, a) + Invoked(reg, b)
    decreases |b|
  {
    if b == [] {
      assert a + b == a;
    } else {
      var init := b[..|b| - 1];
      assert (a + b)[..|a + b| - 1] == a + init;
      InvokedAppend(reg, a, init);
    }
  }

  /** An unregistered name is a failure and its (absent) runner is never called. */
  lemma UnknownNameFails(reg: map<string, RunnerResult>, name: string)
    requires name !in reg
    ensures Failures(reg, [name]) == [name] && Successes(reg, [name]) == []
    ensures Invoked(reg, [name]) == []
  {
    assert [name][..0] == [];
  }

  /** A registered runner fails exactly when it returns `False` or raises. */
  lemma RegisteredOutcome(reg: map<string, RunnerResult>, name: string)
    requires name in reg
    ensures Invoked(reg, [name]) == [name]
    ensures Failures(reg, [name]) == [name] <==> reg[name] in {ReturnedFalse, Raised}
    ensures Successes(reg, [name]) == [name] <==> reg[name] == ReturnedOther
  {
    assert [name][..0] == [];
  }

  /** The exit status is 0 exactly when every requested feed succeeded. */
  lemma {:induction false} ExitZeroIffAllSucceed(reg: map<string, RunnerResult>, feeds: seq<string>)
    ensures Failures(reg, feeds) == [] <==> forall n :: n in feeds ==> Succeeds(reg, n)
  {
    if feeds != [] {
      var init, last := feeds[..|feeds| - 1], feeds[|feeds| - 1];
      ExitZeroIffAllSucceed(reg, init);
      assert feeds == init + [last];
    }
  }

  // ---------------------------------------------------------------------
  // main's selection rule

  /** The exit status argparse uses for a usage error (`parser.error`). */
  const UsageError: int := 2

  /** The feeds `main` selects: every registered one without `--feeds`, the parsed values with it. */
  function Selection(feedsArg: Option<seq<string>>): (selected: seq<string>)
    ensures feedsArg.None? ==> selected == FeedRunnerNames
  {
    match feedsArg
    case None => FeedRunnerNames
    case Some(values) => ParsedNames(values)
  }

  /**
   * `main`: picks the feeds, rejects an empty selection as a usage error
   * before any runner is called, and otherwise returns what the run returns.
   */
  method RunMain(feedsArg: Option<seq<string>>, outcome: string -> RunnerResult)
    returns (exitCode: int, invoked: seq<string>)
    ensures Selection(feedsArg) == [] ==> exitCode == UsageError && invoked == []
    ensures Selection(feedsArg) != [] ==>
      invoked == Invoked(Registry(outcome), Selection(feedsArg)) &&
      (exitCode == 0 <==> forall n :: n in Selection(feedsArg) ==> Succeeds(Registry(outcome), n)) &&
      (exitCode == 0 || exitCode == 1)
  {
    var selected: seq<string>;
    if feedsArg.Some? {
      selected := ParseFeedNames(feedsArg.value);
    } else {
      selected := FeedRunnerNames;
    }
    if selected == [] {
      return UsageError, [];
    }
    var reg := Registry(outcome);
    var successes, failures;
    successes, failures, invoked, exitCode := RunSelectedFeeds(selected, reg);
    ExitZeroIffAllSucceed(reg, selected);
  }

  /** Without `--feeds` every registered runner is called once, in registration order. */
  lemma DefaultRunsAll(outcome: string -> RunnerResult)
    ensures Invoked(Registry(outcome), Selection(None)) == FeedRunnerNames
  {
    InvokedAllRegistered(Registry(outcome), FeedRunnerNames);
  }

  lemma {:induction false} InvokedAllRegistered(reg: map<string, RunnerResult>, feeds: seq<string>)
    requires forall n :: n in feeds ==> n in reg
    ensures Invoked(reg, feeds) == feeds
  {
    if feeds != [] {
      var init := feeds[..|feeds| - 1];
      assert forall n :: n in init ==> n in feeds;
      InvokedAllRegistered(reg, init);
      assert feeds == init + [feeds[|feeds| - 1]];
    }
  }
}

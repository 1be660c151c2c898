/** Command-line arguments: setting values from options as they arrive, resetting the
    options they conflict with, and deciding whether the whole line was acceptable. */
module Arguments {
  import opened Bytes

  /** An option: its letter, current value, the default of its value's type, whether it is
      required, and the letters of the options it conflicts with. */
  datatype Argument<V> = Argument(opt: char, value: V, blank: V, required: bool, conflicts: set<char>)

  /** What getopt delivers: a letter, '?' for an option it does not know, together with
      whether extracting a value for it succeeds and the value extraction leaves behind,
      which may differ from the old one even when extraction fails. */
  datatype Event<V> = Event(opt: char, ok: bool, left: V)

  /** The state of a parse: `failed` is the loop's own error flag. */
  datatype Parsed<V> = Parsed(args: seq<Argument<V>>, got: set<char>, failed: bool)

  /** The index of the first argument with letter `c`, or the number of arguments. */
  function Find<V>(args: seq<Argument<V>>, c: char): (i: nat)
    ensures i <= |args| && (i < |args| ==> args[i].opt == c)
    ensures forall j :: 0 <= j < i ==> args[j].opt != c
  {
    if args == [] then 0
    else if args[0].opt == c then 0
    else
      var j := Find(args[1..], c);
      assert forall k :: 0 < k < j + 1 ==> args[k] == args[1..][k - 1];
      j + 1
  }

  predicate Known<V>(args: seq<Argument<V>>, c: char) {
    Find(args, c) < |args|
  }

  function ConflictsOf<V>(args: seq<Argument<V>>, c: char): set<char> {
    if Known(args, c) then args[Find(args, c)].conflicts else {}
  }

  function SetValue<V>(args: seq<Argument<V>>, c: char, v: V): seq<Argument<V>> {
    if Known(args, c) then args[Find(args, c) := args[Find(args, c)].(value := v)] else args
  }

  /** Defaults for the options of `letters`, each option found by its letter. */
  function Reset<V>(args: seq<Argument<V>>, letters: set<char>): (r: seq<Argument<V>>)
    ensures |r| == |args|
  {
    seq(|args|, i requires 0 <= i < |args| =>
      if args[i].opt in letters && Find(args, args[i].opt) == i then args[i].(value := args[i].blank) else args[i])
  }

  /** One pass of the loop: conflicts are reset whether or not setting succeeded. */
  function Handle<V>(p: Parsed<V>, e: Event<V>): Parsed<V> {
    if e.opt == '?' then
      p.(failed := true)
    else
      var ok := Known(p.args, e.opt) && e.ok;
      var got := if ok then p.got + {e.opt} else p.got;
      var args := SetValue(p.args, e.opt, e.left);
      Parsed(Reset(args, ConflictsOf(args, e.opt) - got), got, p.failed || !ok)
  }

  function Run<V>(args: seq<Argument<V>>, events: seq<Event<V>>): Parsed<V> {
    if events == [] then Parsed(args, {}, false)
    else Handle(Run(args, events[..|events| - 1]), events[|events| - 1])
  }

  /** A required option that did not arrive. */
  predicate Missing<V>(a: Argument<V>, got: set<char>) {
    a.required && a.opt !in got
  }

  /** An option that conflicts with one that did. */
  predicate Displaced<V>(a: Argument<V>, got: set<char>) {
    a.conflicts * got != {}
  }

  /** No option that arrived conflicts with another that did. */
  predicate Compatible<V>(args: seq<Argument<V>>, got: set<char>) {
    forall i :: 0 <= i < |args| && args[i].opt in got ==> !Displaced(args[i], got)
  }

  /** What the check for required options decides: once it has seen a missing option that
      is displaced, it lets every later one pass, displaced or not. */
  predicate Satisfied<V>(args: seq<Argument<V>>, got: set<char>) {
    forall i :: 0 <= i < |args| && Missing(args[i], got) ==> Excused(args, got, i + 1)
  }

  /** Of the first `n` options a missing one is displaced. */
  predicate Excused<V>(args: seq<Argument<V>>, got: set<char>, n: nat)
    requires n <= |args|
  {
    exists j :: 0 <= j < n && Missing(args[j], got) && Displaced(args[j], got)
  }

  lemma ExcusedNext<V>(args: seq<Argument<V>>, got: set<char>, n: nat)
    requires n < |args|
    ensures Excused(args, got, n + 1) <==> Excused(args, got, n) || (Missing(args[n], got) && Displaced(args[n], got))
  {
  }

  /** What it is for: every required option has arrived or been displaced. */
  predicate Intended<V>(args: seq<Argument<V>>, got: set<char>) {
    forall i :: 0 <= i < |args| && Missing(args[i], got) ==> Displaced(args[i], got)
  }

  predicate Accepts<V>(p: Parsed<V>) {
    !p.failed && Satisfied(p.args, p.got) && Compatible(p.args, p.got)
  }

  class Arguments<V> {
    var args: seq<Argument<V>>
    var gotArgs: set<char>

    constructor (args: seq<Argument<V>>)
      ensures this.args == args && gotArgs == {}
    {
      this.args, gotArgs := args, {};
    }

    method Set(c: char, ok: bool, left: V) returns (rc: bool)
      modifies this`args
      ensures args == SetValue(old(args), c, left)
      ensures rc == (Known(old(args), c) && ok)
    {
      rc := false;
      var idx := Find(args, c);
      if idx < |args| {
        args := args[idx := args[idx].(value := left)];
        rc := ok;
      }
    }

    method KillConflicts(c: char)
      modifies this`args
      ensures args == Reset(old(args), ConflictsOf(old(args), c) - gotArgs)
    {
      var conflicts := ConflictsOf(args, c);
      ghost var done: set<char> := {};
      while conflicts != {}
        invariant conflicts + done == ConflictsOf(old(args), c)
        invariant args == Reset(old(args), done - gotArgs)
        decreases |conflicts|
      {
        var conflict :| conflict in conflicts;
        if conflict !in gotArgs {
          ResetOneMore(old(args), done - gotArgs, conflict);
          var idx := Find(args, conflict);
          if idx < |args| {
            args := args[idx := args[idx].(value := args[idx].blank)];
          }
        }
        assert done + {conflict} - gotArgs
               == if conflict in gotArgs then done - gotArgs else done - gotArgs + {conflict};
        conflicts, done := conflicts - {conflict}, done + {conflict};
      }
      assert done == ConflictsOf(old(args), c);
    }

    method GotRequiredArgs() returns (rc: bool)
      ensures rc == Satisfied(args, gotArgs)
      ensures rc <==> forall i :: 0 <= i < |args| && MissingFirst(args, gotArgs, i) ==> Displaced(args[i], gotArgs)
    {
      SatisfiedExactly(args, gotArgs);
      rc := true;
      var foundConflict := false;
      for i := 0 to |args|
        invariant foundConflict <==> Excused(args, gotArgs, i)
        invariant rc <==> forall k :: 0 <= k < i && Missing(args[k], gotArgs) ==> Excused(args, gotArgs, k + 1)
      {
        var e := args[i];
        ExcusedNext(args, gotArgs, i);
        if e.required && e.opt !in gotArgs {
          var cs := e.conflicts;
          while cs != {}
            invariant cs <= e.conflicts && (Displaced(e, gotArgs) <==> cs * gotArgs != {})
            invariant foundConflict <==> Excused(args, gotArgs, i)
            decreases |cs|
          {
            var c :| c in cs;
            if c in gotArgs {
              assert c in e.conflicts * gotArgs;
              foundConflict := true;
              break;
            }
            cs := cs - {c};
          }
          if !foundConflict {
            rc := false;
          }
        }
      }
    }

    method GotConflictingArgs() returns (rc: bool)
      ensures rc == !Compatible(args, gotArgs)
    {
      rc := false;
      for i := 0 to |args|
        invariant !rc <==> forall k :: 0 <= k < i && args[k].opt in gotArgs ==> !Displaced(args[k], gotArgs)
      {
        var e := args[i];
        if e.opt in gotArgs {
          var cs := e.conflicts;
          while cs != {}
            invariant cs <= e.conflicts && cs * gotArgs == e.conflicts * gotArgs
            invariant !rc <==> forall k :: 0 <= k < i && args[k].opt in gotArgs ==> !Displaced(args[k], gotArgs)
            decreases |cs|
          {
            var c :| c in cs;
            if c in gotArgs {
              assert c in e.conflicts * gotArgs;
              rc := true;
              break;
            }
            cs := cs - {c};
          }
        }
      }
    }

    /** `optind` is where getopt stopped. */
    method Parse(events: seq<Event<V>>, optind: int) returns (rc: int)
      modifies this
      ensures var p := Run(old(args), events);
              args == p.args && gotArgs == p.got && rc == if Accepts(p) then optind else -1
      ensures rc == if Acceptable(old(args), events) then optind else -1
    {
      var erc := false;
      gotArgs := {};
      for i := 0 to |events|
        invariant Parsed(args, gotArgs, erc) == Run(old(args), events[..i])
      {
        assert events[..i + 1][..i] == events[..i];
        var optChar := events[i].opt;
        if optChar == '?' {
          erc := true;
        } else {
          var ok := Set(optChar, events[i].ok, events[i].left);
          if ok {
            gotArgs := gotArgs + {optChar};
          } else {
            erc := true;
          }
          KillConflicts(optChar);
        }
      }
      assert events[..|events|] == events;
      var required := GotRequiredArgs();
      var conflicting := GotConflictingArgs();
      rc := if !erc && required && !conflicting then optind else -1;
      AcceptsExactly(old(args), events);
    }

    method SetConflicts(confs: seq<set<char>>)
      modifies this`args
      ensures args == Grouped(old(args), confs)
    {
      for i := 0 to |confs|
        invariant args == Grouped(old(args), confs[..i])
      {
        assert confs[..i + 1][..i] == confs[..i];
        SetConflicts1(confs[i]);
      }
      assert confs[..|confs|] == confs;
    }

    method SetConflicts1(conflicts: set<char>)
      modifies this`args
      ensures args == GroupOnce(old(args), conflicts, conflicts)
    {
      var rest := conflicts;
      ghost var done: set<char> := {};
      assert GroupOnce(args, conflicts, done) == args;
      while rest != {}
        invariant rest + done == conflicts
        invariant args == GroupOnce(old(args), conflicts, done)
        decreases |rest|
      {
        var conflict :| conflict in rest;
        var sc := conflicts - {conflict};
        GroupOneMore(old(args), conflicts, done, conflict);
        var idx := Find(args, conflict);
        if idx < |args| {
          args := args[idx := args[idx].(conflicts := sc)];
        }
        rest, done := rest - {conflict}, done + {conflict};
      }
      assert done == conflicts;
    }
  }

  /** Every option of `members` gets the rest of the group as its conflicts. */
  function GroupOnce<V>(args: seq<Argument<V>>, group: set<char>, members: set<char>): (r: seq<Argument<V>>)
    ensures |r| == |args|
  {
    seq(|args|, i requires 0 <= i < |args| =>
      if args[i].opt in members && Find(args, args[i].opt) == i then
        args[i].(conflicts := group - {args[i].opt})
      else
        args[i])
  }

  function Grouped<V>(args: seq<Argument<V>>, confs: seq<set<char>>): (r: seq<Argument<V>>) {
    if confs == [] then args
    else
      var last := confs[|confs| - 1];
      GroupOnce(Grouped(args, confs[..|confs| - 1]), last, last)
  }

  /** Two lists of the same options: letters, defaults and requirements agree. */
  ghost predicate SameOptions<V>(a: seq<Argument<V>>, b: seq<Argument<V>>) {
    |a| == |b| && forall i :: 0 <= i < |a| ==>
      a[i].opt == b[i].opt && a[i].blank == b[i].blank && a[i].required == b[i].required
  }

  lemma FindAgrees<V>(a: seq<Argument<V>>, b: seq<Argument<V>>, c: char)
    requires SameOptions(a, b)
    ensures Find(a, c) == Find(b, c)
  {
    FindIs(b, c, Find(a, c));
  }

  lemma FindIs<V>(args: seq<Argument<V>>, c: char, i: nat)
    requires i <= |args| && (i < |args| ==> args[i].opt == c)
    requires forall j :: 0 <= j < i ==> args[j].opt != c
    ensures Find(args, c) == i
  {
  }

  lemma ResetOneMore<V>(args: seq<Argument<V>>, letters: set<char>, c: char)
    ensures var r := Reset(args, letters); var i := Find(r, c);
            Reset(args, letters + {c}) == if i < |r| then r[i := r[i].(value := r[i].blank)] else r
  {
    FindAgrees(args, Reset(args, letters), c);
  }

  lemma GroupOneMore<V>(args: seq<Argument<V>>, group: set<char>, members: set<char>, c: char)
    ensures var r := GroupOnce(args, group, members); var i := Find(r, c);
            GroupOnce(args, group, members + {c}) == if i < |r| then r[i := r[i].(conflicts := group - {c})] else r
  {
    FindAgrees(args, GroupOnce(args, group, members), c);
  }

  /** The options a line delivers. */
  function Letters<V>(events: seq<Event<V>>): set<char> {
    set i | 0 <= i < |events| :: events[i].opt
  }

  /** Every event is a declared option whose value could be set. */
  predicate Clean<V>(args: seq<Argument<V>>, events: seq<Event<V>>) {
    forall i :: 0 <= i < |events| ==> events[i].opt != '?' && events[i].ok && Known(args, events[i].opt)
  }

  /** The value the last event for `c` leaves. */
  function Latest<V>(events: seq<Event<V>>, c: char): V
    requires c in Letters(events)
  {
    var last := events[|events| - 1];
    if last.opt == c then last.left
    else
      assert forall i :: 0 <= i < |events| - 1 ==> events[i] == events[..|events| - 1][i];
      Latest(events[..|events| - 1], c)
  }

  /** Some option of `got` has `c` among its conflicts. */
  predicate Opposed<V>(args: seq<Argument<V>>, got: set<char>, c: char) {
    exists r :: r in got && c in ConflictsOf(args, r)
  }

  /** Only values have changed. */
  ghost predicate SameButValues<V>(a: seq<Argument<V>>, b: seq<Argument<V>>) {
    SameOptions(a, b) && forall i :: 0 <= i < |a| ==> a[i].conflicts == b[i].conflicts
  }

  lemma HandleKeepsOptions<V>(p: Parsed<V>, e: Event<V>)
    ensures SameButValues(p.args, Handle(p, e).args)
  {
    hide Find, ConflictsOf;
  }

  lemma {:induction false} RunKeepsOptions<V>(args: seq<Argument<V>>, events: seq<Event<V>>)
    ensures SameButValues(args, Run(args, events).args)
  {
    if events != [] {
      RunKeepsOptions(args, events[..|events| - 1]);
      HandleKeepsOptions(Run(args, events[..|events| - 1]), events[|events| - 1]);
    }
  }

  lemma LettersGrow<V>(events: seq<Event<V>>)
    requires events != []
    ensures Letters(events) == Letters(events[..|events| - 1]) + {events[|events| - 1].opt}
  {
    var n := |events| - 1;
    assert forall i :: 0 <= i < n ==> events[i] == events[..n][i];
    assert events[n].opt in Letters(events);
  }

  predicate Settable<V>(args: seq<Argument<V>>, e: Event<V>) {
    e.opt != '?' && e.ok && Known(args, e.opt)
  }

  lemma HandleFails<V>(p: Parsed<V>, e: Event<V>)
    ensures Handle(p, e).failed <==> p.failed || !Settable(p.args, e)
    ensures Settable(p.args, e) ==> Handle(p, e).got == p.got + {e.opt}
  {
    hide Find, Reset;
  }

  lemma CleanSoFar<V>(args: seq<Argument<V>>, events: seq<Event<V>>)
    requires events != []
    ensures Clean(args, events) <==> Clean(args, events[..|events| - 1]) && Settable(args, events[|events| - 1])
  {
    hide Find, Known;
    var n := |events| - 1;
    assert forall i :: 0 <= i < n ==> events[..n][i] == events[i];
  }

  /** The loop fails exactly on an unknown option or a value it cannot set, and otherwise
      has received the options of the line. */
  lemma {:induction false} RunFailsExactly<V>(args: seq<Argument<V>>, events: seq<Event<V>>)
    ensures Run(args, events).failed <==> !Clean(args, events)
    ensures Clean(args, events) ==> Run(args, events).got == Letters(events)
  {
    hide Handle, Find;
    if events != [] {
      var n := |events| - 1;
      RunFailsExactly(args, events[..n]);
      RunKeepsOptions(args, events[..n]);
      FindAgrees(args, Run(args, events[..n]).args, events[n].opt);
      LettersGrow(events);
      CleanSoFar(args, events);
      HandleFails(Run(args, events[..n]), events[n]);
    }
  }

  /** The verdict depends on the declaration and the options received alone. */
  lemma AcceptsWhenChecked<V>(args: seq<Argument<V>>, events: seq<Event<V>>)
    ensures Accepts(Run(args, events)) <==>
              Clean(args, events) && Compatible(args, Letters(events)) && Satisfied(args, Letters(events))
  {
    RunFailsExactly(args, events);
    RunKeepsOptions(args, events);
    if Clean(args, events) {
      VerdictsAgree(args, Run(args, events).args, Letters(events));
    }
  }

  lemma VerdictsAgree<V>(a: seq<Argument<V>>, b: seq<Argument<V>>, got: set<char>)
    requires SameButValues(a, b)
    ensures Compatible(a, got) == Compatible(b, got)
    ensures Satisfied(a, got) == Satisfied(b, got)
  {
    forall n | 0 <= n <= |a| ensures Excused(a, got, n) == Excused(b, got, n) {
      if Excused(a, got, n) {
        var j :| 0 <= j < n && Missing(a[j], got) && Displaced(a[j], got);
        assert Missing(b[j], got) && Displaced(b[j], got);
      }
      if Excused(b, got, n) {
        var j :| 0 <= j < n && Missing(b[j], got) && Displaced(b[j], got);
        assert Missing(a[j], got) && Displaced(a[j], got);
      }
    }
  }

  predicate Arrived<V>(events: seq<Event<V>>, c: char) {
    exists i :: 0 <= i < |events| && events[i].opt == c
  }

  predicate Declared<V>(args: seq<Argument<V>>, c: char) {
    exists i :: 0 <= i < |args| && args[i].opt == c
  }

  /** Some option that `a` conflicts with has arrived. */
  predicate Blocked<V>(a: Argument<V>, events: seq<Event<V>>) {
    exists c :: c in a.conflicts && Arrived(events, c)
  }

  /** A line in which every option is declared and its value could be extracted, none that
      arrived conflicts with another, and the first required option that did not arrive,
      if there is one, conflicts with one that did. */
  ghost predicate Acceptable<V>(args: seq<Argument<V>>, events: seq<Event<V>>) {
    && (forall i :: 0 <= i < |events| ==> events[i].opt != '?' && events[i].ok && Declared(args, events[i].opt))
    && (forall i :: 0 <= i < |args| && Arrived(events, args[i].opt) ==> !Blocked(args[i], events))
    && (forall i :: 0 <= i < |args| && FirstAbsent(args, events, i) ==> Blocked(args[i], events))
  }

  /** Option `i` is the first required one that did not arrive. */
  predicate FirstAbsent<V>(args: seq<Argument<V>>, events: seq<Event<V>>, i: nat)
    requires i < |args|
  {
    && args[i].required && !Arrived(events, args[i].opt)
    && forall k :: 0 <= k < i && args[k].required ==> Arrived(events, args[k].opt)
  }

  lemma KnownIsDeclared<V>(args: seq<Argument<V>>, c: char)
    ensures Known(args, c) <==> Declared(args, c)
  {
    if Known(args, c) {
      assert args[Find(args, c)].opt == c;
    }
  }

  lemma LettersArrived<V>(events: seq<Event<V>>)
    ensures forall c :: c in Letters(events) <==> Arrived(events, c)
    ensures forall a: Argument<V> :: Displaced(a, Letters(events)) <==> Blocked(a, events)
  {
    forall a: Argument<V> ensures Displaced(a, Letters(events)) <==> Blocked(a, events) {
      if Displaced(a, Letters(events)) {
        var c :| c in a.conflicts * Letters(events);
        assert c in a.conflicts && Arrived(events, c);
      }
      if Blocked(a, events) {
        var c :| c in a.conflicts && Arrived(events, c);
        assert c in a.conflicts * Letters(events);
      }
    }
  }

  /** The letters of the required ones among the first `n` options. */
  function Demanded<V>(args: seq<Argument<V>>, n: nat): (letters: set<char>)
    requires n <= |args|
    ensures forall k :: 0 <= k < n && args[k].required ==> args[k].opt in letters
  {
    set k | 0 <= k < n && args[k].required :: args[k].opt
  }

  lemma {:induction false} LeastMissing<V>(args: seq<Argument<V>>, got: set<char>, i: nat) returns (j: nat)
    requires i < |args| && Missing(args[i], got)
    ensures j <= i && Missing(args[j], got) && Demanded(args, j) <= got
  {
    if k :| 0 <= k < i && Missing(args[k], got) {
      j := LeastMissing(args, got, k);
    } else {
      j := i;
    }
  }

  /** Option `i` is missing, and none before it is. */
  predicate MissingFirst<V>(args: seq<Argument<V>>, got: set<char>, i: nat)
    requires i < |args|
  {
    Missing(args[i], got) && forall k :: 0 <= k < i ==> !Missing(args[k], got)
  }

  /** The check for required options passes exactly when the first that is missing, if any
      is, is displaced; what comes after it does not matter. */
  lemma SatisfiedExactly<V>(args: seq<Argument<V>>, got: set<char>)
    ensures Satisfied(args, got) <==>
              forall i :: 0 <= i < |args| && MissingFirst(args, got, i) ==> Displaced(args[i], got)
    ensures Intended(args, got) ==> Satisfied(args, got)
  {
    if forall i :: 0 <= i < |args| && MissingFirst(args, got, i) ==> Displaced(args[i], got) {
      forall i | 0 <= i < |args| && Missing(args[i], got) ensures Excused(args, got, i + 1) {
        var j := LeastMissing(args, got, i);
        assert MissingFirst(args, got, j);
      }
    }
  }

  /** `Parse` accepts a line exactly when it is acceptable, option by option. */
  lemma AcceptsExactly<V>(args: seq<Argument<V>>, events: seq<Event<V>>)
    ensures Accepts(Run(args, events)) <==> Acceptable(args, events)
  {
    hide Run, Accepts, Satisfied, Displaced, Blocked, Known, Declared, Arrived, Letters;
    var got := Letters(events);
    AcceptsWhenChecked(args, events);
    LettersArrived(events);
    SatisfiedExactly(args, got);
    forall i | 0 <= i < |events| ensures Known(args, events[i].opt) <==> Declared(args, events[i].opt) {
      KnownIsDeclared(args, events[i].opt);
    }
  }

  /** A line whose options can all be set and do not conflict, and that has or displaces
      every required option, is acceptable. */
  lemma IntendedIsAcceptable<V>(args: seq<Argument<V>>, events: seq<Event<V>>)
    requires Clean(args, events) && Compatible(args, Letters(events)) && Intended(args, Letters(events))
    ensures Acceptable(args, events)
  {
    SatisfiedExactly(args, Letters(events));
    AcceptsWhenChecked(args, events);
    AcceptsExactly(args, events);
  }

  /** The value option `c` should end with. */
  function Expected<V>(args: seq<Argument<V>>, events: seq<Event<V>>, c: char): V
    requires Known(args, c)
  {
    if c in Letters(events) then Latest(events, c)
    else if Opposed(args, Letters(events), c) then args[Find(args, c)].blank
    else args[Find(args, c)].value
  }

  lemma HandleValue<V>(p: Parsed<V>, e: Event<V>, c: char)
    requires e.opt != '?' && e.ok && Known(p.args, e.opt) && Known(p.args, c)
    ensures var i := Find(p.args, c);
            Handle(p, e).args[i].value ==
              if c == e.opt then e.left
              else if c in ConflictsOf(p.args, e.opt) && c !in p.got then p.args[i].blank
              else p.args[i].value
  {
    var args := SetValue(p.args, e.opt, e.left);
    FindAgrees(p.args, args, c);
    FindAgrees(p.args, args, e.opt);
  }

  lemma ExpectedStep<V>(args: seq<Argument<V>>, events: seq<Event<V>>, c: char)
    requires events != [] && Known(args, c)
    ensures var n := |events| - 1;
            Expected(args, events, c) ==
              if c == events[n].opt then events[n].left
              else if c in ConflictsOf(args, events[n].opt) && c !in Letters(events[..n]) then args[Find(args, c)].blank
              else Expected(args, events[..n], c)
  {
    LettersGrow(events);
    var n := |events| - 1;
    var e := events[n].opt;
    assert Opposed(args, Letters(events), c) <==> Opposed(args, Letters(events[..n]), c) || c in ConflictsOf(args, e);
  }

  /** On a line whose options can all be set, every option that arrived ends with the value
      of its last event, every other option that conflicts with an arrival ends with its
      default, and the rest keep what they had, whatever order the options came in. */
  lemma {:induction false} ValuesOf<V>(args: seq<Argument<V>>, events: seq<Event<V>>, c: char)
    requires Clean(args, events) && Known(args, c)
    ensures |Run(args, events).args| == |args|
    ensures Run(args, events).args[Find(args, c)].value == Expected(args, events, c)
  {
    RunKeepsOptions(args, events);
    if events != [] {
      var n := |events| - 1;
      var p := Run(args, events[..n]);
      assert Clean(args, events[..n]);
      ValuesOf(args, events[..n], c);
      RunKeepsOptions(args, events[..n]);
      RunFailsExactly(args, events[..n]);
      FindAgrees(args, p.args, c);
      FindAgrees(args, p.args, events[n].opt);
      HandleValue(p, events[n], c);
      ExpectedStep(args, events, c);
    }
  }

  /** Option `c` has been set successfully by one of the first `n` events. */
  predicate Taken<V>(events: seq<Event<V>>, n: nat, c: char)
    requires n <= |events|
  {
    exists j :: 0 <= j < n && events[j].opt == c && events[j].ok && c != '?'
  }

  /** Event `i` resets option `c`, with which its own option conflicts. */
  predicate Clears<V>(args: seq<Argument<V>>, events: seq<Event<V>>, i: nat, c: char)
    requires i < |events|
  {
    events[i].opt != '?' && c in ConflictsOf(args, events[i].opt) && !Taken(events, i + 1, c)
  }

  /** Event `i` changes option `c`: it is about it, or resets it. */
  predicate Touches<V>(args: seq<Argument<V>>, events: seq<Event<V>>, i: nat, c: char)
    requires i < |events|
  {
    (events[i].opt == c && c != '?') || Clears(args, events, i, c)
  }

  /** What happened to `c` last on a line. */
  ghost predicate EndsAs<V>(args: seq<Argument<V>>, events: seq<Event<V>>, c: char, value: V)
    requires Known(args, c)
  {
    && (forall i :: 0 <= i < |events| && Touches(args, events, i, c)
                    && (forall j :: i < j < |events| ==> !Touches(args, events, j, c)) ==>
          value == if Clears(args, events, i, c) then args[Find(args, c)].blank else events[i].left)
    && ((forall i :: 0 <= i < |events| ==> !Touches(args, events, i, c)) ==> value == args[Find(args, c)].value)
  }

  lemma {:induction false} GotIsTaken<V>(args: seq<Argument<V>>, events: seq<Event<V>>, c: char)
    requires Known(args, c)
    ensures c in Run(args, events).got <==> Taken(events, |events|, c)
  {
    if events != [] {
      var n := |events| - 1;
      GotIsTaken(args, events[..n], c);
      RunKeepsOptions(args, events[..n]);
      FindAgrees(args, Run(args, events[..n]).args, events[n].opt);
      TakenStep(events, c);
    }
  }

  lemma TakenStep<V>(events: seq<Event<V>>, c: char)
    requires events != []
    ensures var n := |events| - 1;
            Taken(events, |events|, c) <==> Taken(events[..n], n, c) || (events[n].opt == c && events[n].ok && c != '?')
  {
  }

  lemma AnyHandleValue<V>(p: Parsed<V>, e: Event<V>, c: char)
    requires Known(p.args, c) && e.opt != '?'
    ensures var i, p' := Find(p.args, c), Handle(p, e);
            p'.args[i].value ==
              if c in ConflictsOf(p.args, e.opt) && c !in p'.got then p.args[i].blank
              else if c == e.opt then e.left
              else p.args[i].value
  {
    var args := SetValue(p.args, e.opt, e.left);
    FindAgrees(p.args, args, c);
    FindAgrees(p.args, args, e.opt);
  }

  lemma TouchedBefore<V>(args: seq<Argument<V>>, events: seq<Event<V>>, i: nat, c: char)
    requires i < |events| - 1
    ensures Touches(args, events, i, c) <==> Touches(args, events[..|events| - 1], i, c)
    ensures Clears(args, events, i, c) <==> Clears(args, events[..|events| - 1], i, c)
  {
    assert forall j :: 0 <= j < i + 1 ==> events[j] == events[..|events| - 1][j];
  }

  lemma LaterTouch<V>(args: seq<Argument<V>>, events: seq<Event<V>>, c: char, before: V, after: V)
    requires events != [] && Known(args, c)
    requires var n := |events| - 1;
             && EndsAs(args, events[..n], c, before)
             && after == if Clears(args, events, n, c) then args[Find(args, c)].blank
                         else if events[n].opt == c && c != '?' then events[n].left
                         else before
    ensures EndsAs(args, events, c, after)
  {
    hide Clears, Find;
    var n := |events| - 1;
    forall i | 0 <= i < n
      ensures Touches(args, events, i, c) <==> Touches(args, events[..n], i, c)
      ensures Clears(args, events, i, c) <==> Clears(args, events[..n], i, c)
    {
      TouchedBefore(args, events, i, c);
    }
    forall i | 0 <= i < |events| && Touches(args, events, i, c)
               && forall j :: i < j < |events| ==> !Touches(args, events, j, c)
      ensures after == if Clears(args, events, i, c) then args[Find(args, c)].blank else events[i].left
    {
      if i < n {
        assert !Touches(args, events, n, c);
        assert forall j :: i < j < n ==> !Touches(args, events[..n], j, c);
      }
    }
    if forall i :: 0 <= i < |events| ==> !Touches(args, events, i, c) {
      assert !Touches(args, events, n, c);
    }
  }

  /** On any line, errors included, each option ends with what the last event that changed
      it left: the value extraction left, even if it failed, or the default if the event's
      option conflicts with it and it had not been received. */
  lemma {:induction false} ValuesOnAnyLine<V>(args: seq<Argument<V>>, events: seq<Event<V>>, c: char)
    requires Known(args, c)
    ensures |Run(args, events).args| == |args|
    ensures EndsAs(args, events, c, Run(args, events).args[Find(args, c)].value)
  {
    hide Handle, Find, EndsAs, Clears;
    RunKeepsOptions(args, events);
    if events == [] {
      NothingTouched(args, c);
    } else {
      var n := |events| - 1;
      var p := Run(args, events[..n]);
      ValuesOnAnyLine(args, events[..n], c);
      RunKeepsOptions(args, events[..n]);
      FindAgrees(args, p.args, c);
      FindAgrees(args, p.args, events[n].opt);
      LastEvent(args, events, c);
      LaterTouch(args, events, c, p.args[Find(args, c)].value, Run(args, events).args[Find(args, c)].value);
    }
  }

  lemma NothingTouched<V>(args: seq<Argument<V>>, c: char)
    requires Known(args, c)
    ensures EndsAs(args, [], c, Run(args, []).args[Find(args, c)].value)
  {
  }

  lemma LastEvent<V>(args: seq<Argument<V>>, events: seq<Event<V>>, c: char)
    requires events != [] && Known(args, c)
    requires SameButValues(args, Run(args, events[..|events| - 1]).args) && SameButValues(args, Run(args, events).args)
    ensures var n, i := |events| - 1, Find(args, c);
            Run(args, events).args[i].value ==
              if Clears(args, events, n, c) then args[i].blank
              else if events[n].opt == c && c != '?' then events[n].left
              else Run(args, events[..n]).args[i].value
  {
    hide Handle, Find;
    var n := |events| - 1;
    var p := Run(args, events[..n]);
    FindAgrees(args, p.args, c);
    FindAgrees(args, p.args, events[n].opt);
    GotIsTaken(args, events, c);
    if events[n].opt == '?' {
      UnknownChangesNothing(p, events[n]);
    } else {
      AnyHandleValue(p, events[n], c);
    }
  }

  lemma UnknownChangesNothing<V>(p: Parsed<V>, e: Event<V>)
    requires e.opt == '?'
    ensures Handle(p, e).args == p.args
  {
  }

  lemma CompatibleMeans<V>(args: seq<Argument<V>>, got: set<char>, r: char, c: char)
    requires Compatible(args, got) && r in got && c in ConflictsOf(args, r)
    ensures c !in got
  {
    var conflicts := args[Find(args, r)].conflicts;
    assert conflicts * got == {};
    assert c in conflicts * got <==> c in got;
  }

  /** After a line that was accepted, whatever conflicts with an option that arrived did
      not arrive and holds its default value. */
  lemma AcceptedMeansDisjoint<V>(args: seq<Argument<V>>, events: seq<Event<V>>, r: char, c: char)
    requires Accepts(Run(args, events))
    requires r in Letters(events) && c in ConflictsOf(args, r)
    ensures c !in Letters(events)
    ensures |Run(args, events).args| == |args|
    ensures Known(args, c) ==> Run(args, events).args[Find(args, c)].value == args[Find(args, c)].blank
  {
    hide Run, Handle, Reset, SetValue, Find, Satisfied, Latest;
    AcceptsWhenChecked(args, events);
    RunKeepsOptions(args, events);
    var got := Letters(events);
    CompatibleMeans(args, got, r, c);
    if Known(args, c) {
      ValuesOf(args, events, c);
      assert Opposed(args, got, c);
    }
  }

  lemma FewerAreCompatible<V>(args: seq<Argument<V>>, few: set<char>, got: set<char>)
    requires Compatible(args, got) && few <= got
    ensures Compatible(args, few)
  {
    forall i | 0 <= i < |args| && args[i].opt in few ensures !Displaced(args[i], few) {
      assert !Displaced(args[i], got);
      assert args[i].conflicts * few <= args[i].conflicts * got;
    }
  }

  /** The least that a line must hold for option `j` to be the first one missing, and
      displaced by `c`. */
  function Least<V>(args: seq<Argument<V>>, j: nat, c: char): (got: set<char>)
    requires j <= |args|
  {
    {c} + Demanded(args, j)
  }

  /** Required option `j`, displaced by `c`, keeps the check from missing the later one `i`. */
  predicate Hides<V>(args: seq<Argument<V>>, j: nat, i: nat, c: char) {
    && j < i < |args| && args[j].required && args[i].required && c in args[j].conflicts
    && var got := Least(args, j, c);
       args[j].opt !in got && args[i].opt !in got && !Displaced(args[i], got)
  }

  /** On a line that satisfies the check and should not, the first option missing hides
      the one that is not displaced. */
  lemma FirstMissing<V>(args: seq<Argument<V>>, got: set<char>, i: nat) returns (j: nat, c: char)
    requires Satisfied(args, got) && i < |args| && Missing(args[i], got) && !Displaced(args[i], got)
    ensures Hides(args, j, i, c) && Least(args, j, c) <= got
  {
    j := LeastMissing(args, got, i);
    assert Excused(args, got, j + 1);
    assert Displaced(args[j], got) by {
      var k :| 0 <= k <= j && Missing(args[k], got) && Displaced(args[k], got);
    }
    c :| c in args[j].conflicts * got;
    LeastHides(args, got, j, i, c);
  }

  lemma LeastHides<V>(args: seq<Argument<V>>, got: set<char>, j: nat, i: nat, c: char)
    requires j < i < |args| && Demanded(args, j) <= got && c in args[j].conflicts * got
    requires Missing(args[j], got) && Missing(args[i], got) && !Displaced(args[i], got)
    ensures Hides(args, j, i, c) && Least(args, j, c) <= got
  {
    hide Demanded;
    var few := Least(args, j, c);
    if Displaced(args[i], few) {
      DisplacedByMore(args[i], few, got);
    }
  }

  lemma DisplacedByMore<V>(a: Argument<V>, few: set<char>, got: set<char>)
    requires few <= got && Displaced(a, few)
    ensures Displaced(a, got)
  {
    var c :| c in a.conflicts * few;
    assert c in a.conflicts * got;
  }

  lemma HiddenIsAccepted<V>(args: seq<Argument<V>>, j: nat, i: nat, c: char)
    requires Hides(args, j, i, c)
    ensures var got := Least(args, j, c); Satisfied(args, got) && !Intended(args, got)
  {
    var got := Least(args, j, c);
    assert c in args[j].conflicts * got;
    assert Missing(args[j], got) && Displaced(args[j], got);
    assert Missing(args[i], got) && !Displaced(args[i], got);
  }

  /** The check does what it is for, whatever arrives, exactly when no required option can
      hide a later one. */
  lemma DeclarationOrderDecides<V>(args: seq<Argument<V>>)
    ensures (forall got :: Satisfied(args, got) ==> Intended(args, got)) <==> !exists j, i, c :: Hides(args, j, i, c)
  {
    hide Satisfied, Hides;
    if j, i, c :| Hides(args, j, i, c) {
      HiddenIsAccepted(args, j, i, c);
    } else {
      forall got | Satisfied(args, got) ensures Intended(args, got) {
        if i :| 0 <= i < |args| && Missing(args[i], got) && !Displaced(args[i], got) {
          var j, c := FirstMissing(args, got, i);
        }
      }
    }
  }

  /** The same on a line that is otherwise acceptable. */
  predicate HidesOnLine<V>(args: seq<Argument<V>>, j: nat, i: nat, c: char) {
    && Hides(args, j, i, c)
    && var got := Least(args, j, c);
       Compatible(args, got) && forall l :: l in got ==> l != '?' && Known(args, l)
  }

  /** A line of the given options. */
  lemma {:induction false} LineOf<V>(letters: set<char>, left: V) returns (events: seq<Event<V>>)
    ensures Letters(events) == letters && forall i :: 0 <= i < |events| ==> events[i].ok
    decreases |letters|
  {
    events := [];
    if letters != {} {
      var c :| c in letters;
      var rest := LineOf(letters - {c}, left);
      events := rest + [Event(c, true, left)];
      assert events[..|rest|] == rest;
      LettersGrow(events);
    }
  }

  lemma CleanLetters<V>(args: seq<Argument<V>>, events: seq<Event<V>>)
    ensures Clean(args, events) <==> && (forall i :: 0 <= i < |events| ==> events[i].ok)
                                     && (forall l :: l in Letters(events) ==> l != '?' && Known(args, l))
  {
    forall i | 0 <= i < |events| ensures events[i].opt in Letters(events) {
    }
  }

  lemma HiddenLine<V>(args: seq<Argument<V>>, j: nat, i: nat, c: char) returns (events: seq<Event<V>>)
    requires HidesOnLine(args, j, i, c)
    ensures Accepts(Run(args, events)) && !Intended(args, Letters(events))
  {
    hide Satisfied, Run, Clean, Intended, Least;
    events := LineOf(Least(args, j, c), args[j].value);
    CleanLetters(args, events);
    HiddenIsAccepted(args, j, i, c);
    AcceptsWhenChecked(args, events);
  }

  lemma AcceptedHides<V>(args: seq<Argument<V>>, events: seq<Event<V>>) returns (j: nat, i: nat, c: char)
    requires Accepts(Run(args, events)) && !Intended(args, Letters(events))
    ensures HidesOnLine(args, j, i, c)
  {
    hide Satisfied, Hides, Run, Clean, Least, Compatible;
    AcceptsWhenChecked(args, events);
    var got := Letters(events);
    i :| 0 <= i < |args| && Missing(args[i], got) && !Displaced(args[i], got);
    j, c := FirstMissing(args, got, i);
    FewerAreCompatible(args, Least(args, j, c), got);
    CleanLetters(args, events);
  }

  /** Every accepted line has or displaces every required option exactly when no required
      option can hide a later one on an otherwise acceptable line. */
  lemma AcceptedMeansRequired<V(!new)>(args: seq<Argument<V>>)
    ensures (forall events :: Accepts(Run(args, events)) ==> Intended(args, Letters(events)))
       <==> !exists j, i, c :: HidesOnLine(args, j, i, c)
  {
    hide Intended, HidesOnLine, Run, Accepts;
    if j, i, c :| HidesOnLine(args, j, i, c) {
      var events := HiddenLine(args, j, i, c);
    } else {
      forall events | Accepts(Run(args, events)) ensures Intended(args, Letters(events)) {
        if !Intended(args, Letters(events)) {
          var j, i, c := AcceptedHides(args, events);
        }
      }
    }
  }

  /** Options a and b are required and a conflicts with x: the line `-x` is accepted though
      b is missing and conflicts with nothing. */
  lemma MissingOptionSlipsThrough()
    ensures var args := [Argument('a', 1, 0, true, {'x'}), Argument('x', 1, 0, false, {'a'}),
                         Argument('b', 1, 0, true, {})];
            var events := [Event('x', true, 7)];
            Accepts(Run(args, events)) && !Intended(args, Letters(events))
  {
    var args := [Argument('a', 1, 0, true, {'x'}), Argument('x', 1, 0, false, {'a'}), Argument('b', 1, 0, true, {})];
    var events := [Event('x', true, 7)];
    var got := Letters(events);
    FindIs(args, 'x', 1);
    assert events[0].opt == 'x' && 'x' in got;
    assert Displaced(args[0], got) by {
      assert 'x' in args[0].conflicts * got;
    }
    assert Missing(args[2], got) && !Displaced(args[2], got);
    AcceptsWhenChecked(args, events);
  }

  /** The last of the groups that lists `c`. */
  function LastGroup(confs: seq<set<char>>, c: char): Option<set<char>> {
    if confs == [] then None
    else if c in confs[|confs| - 1] then Some(confs[|confs| - 1])
    else LastGroup(confs[..|confs| - 1], c)
  }

  /** No group from `n` on lists `c`. */
  predicate Unlisted(confs: seq<set<char>>, n: nat, c: char) {
    forall j :: n <= j < |confs| ==> c !in confs[j]
  }

  lemma {:induction false} LastGroupIs(confs: seq<set<char>>, c: char)
    ensures LastGroup(confs, c).None? <==> Unlisted(confs, 0, c)
    ensures LastGroup(confs, c).Some? ==>
              exists i :: 0 <= i < |confs| && confs[i] == LastGroup(confs, c).value && c in confs[i]
                          && Unlisted(confs, i + 1, c)
  {
    if confs != [] {
      var n := |confs| - 1;
      if c in confs[n] {
        assert Unlisted(confs, n + 1, c);
      } else {
        LastGroupIs(confs[..n], c);
        if LastGroup(confs, c).Some? {
          var i :| 0 <= i < n && confs[..n][i] == LastGroup(confs, c).value && c in confs[..n][i]
                   && Unlisted(confs[..n], i + 1, c);
          assert Unlisted(confs, i + 1, c);
        }
      }
    }
  }

  /** Of the groups that list an option only the last one counts. */
  lemma {:induction false} LastGroupWins<V>(args: seq<Argument<V>>, confs: seq<set<char>>, c: char)
    ensures SameOptions(args, Grouped(args, confs))
    ensures Known(args, c) ==>
              ConflictsOf(Grouped(args, confs), c) ==
                match LastGroup(confs, c) case None => ConflictsOf(args, c) case Some(g) => g - {c}
  {
    if confs != [] {
      var n := |confs| - 1;
      LastGroupWins(args, confs[..n], c);
      var before := Grouped(args, confs[..n]);
      FindAgrees(args, before, c);
      FindAgrees(before, Grouped(args, confs), c);
    }
    FindAgrees(args, Grouped(args, confs), c);
  }

  predicate Excludes(confs: seq<set<char>>, x: char, y: char) {
    match LastGroup(confs, x) case None => false case Some(g) => y in g
  }

  /** Two options of a freshly grouped command are compatible exactly when the last group
      of neither lists the other. */
  lemma CompatibleExactly<V>(args: seq<Argument<V>>, confs: seq<set<char>>, x: char, y: char)
    requires x != y && Known(args, x) && Known(args, y)
    requires forall i :: 0 <= i < |args| ==> args[i].conflicts == {}
    ensures Compatible(Grouped(args, confs), {x, y}) <==> !Excludes(confs, x, y) && !Excludes(confs, y, x)
  {
    var grouped, got := Grouped(args, confs), {x, y};
    LastGroupWins(args, confs, x);
    LastGroupWins(args, confs, y);
    FindAgrees(args, grouped, x);
    FindAgrees(args, grouped, y);
    assert Excludes(confs, x, y) ==> y in grouped[Find(grouped, x)].conflicts * got;
    assert Excludes(confs, y, x) ==> x in grouped[Find(grouped, y)].conflicts * got;
    forall i | 0 <= i < |args| && args[i].opt in got && !Excludes(confs, x, y) && !Excludes(confs, y, x)
      ensures !Displaced(grouped[i], got)
    {
      OnlyFirstIsGrouped(args, confs, i);
    }
  }

  lemma {:induction false} OnlyFirstIsGrouped<V>(args: seq<Argument<V>>, confs: seq<set<char>>, i: nat)
    requires i < |args|
    ensures SameOptions(args, Grouped(args, confs))
    ensures Find(args, args[i].opt) != i ==> Grouped(args, confs)[i].conflicts == args[i].conflicts
    ensures Find(args, args[i].opt) == i ==>
              Grouped(args, confs)[i].conflicts == ConflictsOf(Grouped(args, confs), args[i].opt)
  {
    LastGroupWins(args, confs, args[i].opt);
    FindAgrees(args, Grouped(args, confs), args[i].opt);
    if confs != [] {
      OnlyFirstIsGrouped(args, confs[..|confs| - 1], i);
      FindAgrees(args, Grouped(args, confs[..|confs| - 1]), args[i].opt);
    }
  }

  /** No accepted line holds two options when the last group of one lists the other. */
  lemma AcceptedMeansExclusive<V>(args: seq<Argument<V>>, confs: seq<set<char>>, events: seq<Event<V>>, x: char,
          y: char)
    requires Excludes(confs, x, y) && x != y && Known(args, x) && Known(args, y)
    requires forall i :: 0 <= i < |args| ==> args[i].conflicts == {}
    requires Accepts(Run(Grouped(args, confs), events))
    ensures !(x in Letters(events) && y in Letters(events))
  {
    AcceptsWhenChecked(Grouped(args, confs), events);
    if x in Letters(events) && y in Letters(events) {
      FewerAreCompatible(Grouped(args, confs), {x, y}, Letters(events));
      CompatibleExactly(args, confs, x, y);
      assert false;
    }
  }

  /** Sharing a group is not enough: each later group replaces the conflicts of an earlier
      one, so of three pairs over three options the first is forgotten. */
  lemma SharedGroupIsForgotten()
    ensures var args := [Argument('a', 1, 0, false, {}), Argument('b', 1, 0, false, {}),
                         Argument('c', 1, 0, false, {})];
            var confs := [{'a', 'b'}, {'a', 'c'}, {'b', 'c'}];
            Compatible(Grouped(args, confs), {'a', 'b'})
  {
    var args := [Argument('a', 1, 0, false, {}), Argument('b', 1, 0, false, {}), Argument('c', 1, 0, false, {})];
    var confs: seq<set<char>> := [{'a', 'b'}, {'a', 'c'}, {'b', 'c'}];
    FindIs(args, 'a', 0);
    FindIs(args, 'b', 1);
    assert confs[..2] == [{'a', 'b'}, {'a', 'c'}];
    assert LastGroup(confs, 'a') == Some({'a', 'c'});
    assert LastGroup(confs, 'b') == Some({'b', 'c'});
    CompatibleExactly(args, confs, 'a', 'b');
  }
}

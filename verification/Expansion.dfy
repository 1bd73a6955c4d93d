/** What a chain means, independently of the code that runs it: its expansion tree, the order of
    executions, and what each execution is given. */
module Expansion {
  import opened Text
  import opened Model

  const MAX_DEPTH: nat := 8
  const MAX_STEPS: nat := 32

  /** The `RequestFinder` and `Executor` interfaces. The executor may answer differently every time:
      its answer depends on how many executions went before. */
  datatype Finder = Finder(byPath: string -> Option<Request>, byID: string -> Option<Request>)

  datatype RequestView = RequestView(httpMethod: string, url: string, body: string)
  datatype ResponseView = ResponseView(statusCode: int, headers: seq<KeyValue>, body: string)
  datatype View = View(request: RequestView, response: ResponseView)
  datatype Outcome = Outcome(view: View, lines: seq<string>, err: Option<string>)

  type Executor = (nat, Request, map<string, View>) -> Outcome

  /** One ExecuteOnce call: for which step, with which chain map, and what came back. */
  datatype Call = Call(step: ChainStep, target: Request, chainMap: map<string, View>, outcome: Outcome)

  // ----- single steps -----

  /** `resolveTarget`. */
  function Target(f: Finder, s: ChainStep): Option<Request> {
    if s.requestID != "" && f.byID(s.requestID).Some? then f.byID(s.requestID)
    else if s.request == "" then None
    else f.byPath(s.request)
  }

  /** `visitKey`. */
  function VisitKey(target: Request, s: ChainStep): string {
    if target.id != "" then target.id else "\0path:" + s.request
  }

  predicate IdentStart(c: char) { 'A' <= c <= 'Z' || 'a' <= c <= 'z' || c == '_' || c == '$' }

  predicate IsIdentifier(s: string) {
    s != "" && IdentStart(s[0]) && forall i :: 0 < i < |s| ==> IdentStart(s[i]) || IsDigit(s[i])
  }

  /** Letters, digits but for the first character, underscore and dollar, by code points. */
  lemma IdentifierIs(s: string)
    ensures IsIdentifier(s) <==>
            s != "" && forall i :: 0 <= i < |s| ==>
                                     var n := s[i] as int;
                                     || n == 0x24 || n == 0x5F || 0x41 <= n <= 0x5A || 0x61 <= n <= 0x7A
                                     || (0x30 <= n <= 0x39 && i > 0)
  {
  }

  const RESERVED: set<string> := {
    "break", "case", "catch", "class", "const", "continue", "debugger", "default", "delete", "do",
    "else", "enum", "export", "extends", "false", "finally", "for", "function", "if", "import",
    "in", "instanceof", "new", "null", "return", "super", "switch", "this", "throw", "true",
    "try", "typeof", "var", "void", "while", "with", "yield", "let", "static", "await"}

  const OBJECT_PROPS: set<string> := {
    "__proto__", "constructor", "prototype", "hasOwnProperty", "isPrototypeOf", "propertyIsEnumerable",
    "toLocaleString", "toString", "valueOf", "__defineGetter__", "__defineSetter__",
    "__lookupGetter__", "__lookupSetter__"}

  predicate UsableAlias(alias: string) {
    IsIdentifier(alias) && alias !in RESERVED && alias !in OBJECT_PROPS
  }

  predicate HasRef(s: ChainStep) { s.request != "" || s.requestID != "" }

  // ----- expansions -----

  /** One step with everything that runs before it. */
  datatype Exp = Exp(step: ChainStep, target: Request, below: seq<Exp>)

  /** es is the full expansion of steps: every step resolved, and its own chain expanded. */
  ghost predicate IsExpansion(f: Finder, steps: seq<ChainStep>, es: seq<Exp>)
    decreases es
  {
    && |es| == |steps|
    && forall i :: 0 <= i < |es| ==>
                     && es[i].step == steps[i]
                     && Target(f, steps[i]) == Some(es[i].target)
                     && IsExpansion(f, es[i].target.chain, es[i].below)
  }

  /** Usable, distinct aliases at every level. */
  ghost predicate WellFormed(es: seq<Exp>)
    decreases es
  {
    && (forall i :: 0 <= i < |es| ==> UsableAlias(es[i].step.alias) && HasRef(es[i].step) && WellFormed(es[i].below))
    && (forall i, j :: 0 <= i < j < |es| ==> es[i].step.alias != es[j].step.alias)
  }

  /** No path from the top repeats a visit key, nor meets one of `seen`. */
  ghost predicate NoRepeat(es: seq<Exp>, seen: set<string>)
    decreases es
  {
    forall i :: 0 <= i < |es| ==>
                  var key := VisitKey(es[i].target, es[i].step);
                  key !in seen && NoRepeat(es[i].below, seen + {key})
  }

  ghost predicate AtMostDeep(es: seq<Exp>, n: nat)
    decreases n
  {
    forall i :: 0 <= i < |es| ==> n > 0 && AtMostDeep(es[i].below, n - 1)
  }

  /** The number of steps in the first n siblings and everything below them. */
  function Size(es: seq<Exp>, n: nat): nat
    requires n <= |es|
    decreases es, n
  {
    if n == 0 then 0 else Size(es, n - 1) + Total(es[n - 1].below) + 1
  }

  function Total(es: seq<Exp>): nat
    decreases es, |es| + 1
  {
    Size(es, |es|)
  }

  // ----- running an expansion -----

  /** The call made for e when k calls went before its subtree. */
  function OwnCall(x: Executor, e: Exp, k: nat): Call
    decreases e, 0
  {
    var views := Views(x, e.below, |e.below|, k);
    Call(e.step, e.target, views, x(k + Total(e.below), e.target, views))
  }

  /** The alias map that the parent is given, after the first n siblings. */
  function Views(x: Executor, es: seq<Exp>, n: nat, k: nat): map<string, View>
    requires n <= |es|
    decreases es, n
  {
    if n == 0 then map[]
    else Views(x, es, n - 1, k)[es[n - 1].step.alias := OwnCall(x, es[n - 1], k + Size(es, n - 1)).outcome.view]
  }

  /** All calls of the first n siblings, each after the calls of its own chain. */
  function Calls(x: Executor, es: seq<Exp>, n: nat, k: nat): seq<Call>
    requires n <= |es|
    decreases es, n
  {
    if n == 0 then []
    else Calls(x, es, n - 1, k) + Subtree(x, es[n - 1], k + Size(es, n - 1))
  }

  function Subtree(x: Executor, e: Exp, k: nat): seq<Call>
    decreases e, 0
  {
    Calls(x, e.below, |e.below|, k) + [OwnCall(x, e, k)]
  }

  /** Every execution of the first n siblings and below succeeds. */
  ghost predicate Succeeds(x: Executor, es: seq<Exp>, n: nat, k: nat)
    requires n <= |es|
    decreases es, n
  {
    n > 0 ==>
      var at := k + Size(es, n - 1);
      && Succeeds(x, es, n - 1, k)
      && Succeeds(x, es[n - 1].below, |es[n - 1].below|, at)
      && OwnCall(x, es[n - 1], at).outcome.err == None
  }

  /** Every reached step well formed and resolvable, no repeated key, not too deep. */
  ghost predicate Admissible(f: Finder, steps: seq<ChainStep>, es: seq<Exp>, depth: nat, seen: set<string>) {
    && depth < MAX_DEPTH
    && IsExpansion(f, steps, es)
    && WellFormed(es)
    && NoRepeat(es, seen)
    && AtMostDeep(es, MAX_DEPTH - 1 - depth)
  }

  /** A chain that runs through: the exact condition for success. */
  ghost predicate Runs(f: Finder, x: Executor, steps: seq<ChainStep>, es: seq<Exp>, depth: nat, seen: set<string>, k: nat) {
    && Admissible(f, steps, es, depth, seen)
    && k + Total(es) <= MAX_STEPS
    && Succeeds(x, es, |es|, k)
  }

  /** The tests made on a step before its own chain is expanded. */
  predicate StepAdmitted(f: Finder, s: ChainStep, taken: map<string, View>, seen: set<string>) {
    && UsableAlias(s.alias) && HasRef(s) && s.alias !in taken
    && Target(f, s).Some? && VisitKey(Target(f, s).value, s) !in seen
  }

  // ----- facts about expansions -----

  lemma {:induction false} ExpansionUnique(f: Finder, steps: seq<ChainStep>, es: seq<Exp>, es': seq<Exp>)
    requires IsExpansion(f, steps, es) && IsExpansion(f, steps, es')
    ensures es == es'
    decreases es
  {
    forall i | 0 <= i < |es| ensures es[i] == es'[i] {
      ExpansionUnique(f, es[i].target.chain, es[i].below, es'[i].below);
    }
  }

  lemma {:induction false} SucceedsAt(x: Executor, es: seq<Exp>, n: nat, k: nat, i: nat)
    requires i < n <= |es| && Succeeds(x, es, n, k)
    ensures var at := k + Size(es, i);
            Succeeds(x, es[i].below, |es[i].below|, at) && OwnCall(x, es[i], at).outcome.err == None
    ensures Size(es, i) + Total(es[i].below) + 1 <= Size(es, n)
    decreases n
  {
    if i < n - 1 {
      SucceedsAt(x, es, n - 1, k, i);
    }
  }

  /** Whatever sits below a step of a chain that runs also runs. */
  lemma {:induction false} RunsAt(f: Finder, x: Executor, steps: seq<ChainStep>, es: seq<Exp>, depth: nat, seen: set<string>, k: nat, i: nat, at: nat)
    requires Runs(f, x, steps, es, depth, seen, k) && i < |es| && at == k + Size(es, i)
    ensures Runs(f, x, es[i].target.chain, es[i].below, depth + 1, seen + {VisitKey(es[i].target, es[i].step)}, at)
    ensures at + Total(es[i].below) < MAX_STEPS
    ensures OwnCall(x, es[i], at).outcome.err == None
  {
    hide Views, Calls, OwnCall, IsIdentifier;
    SucceedsAt(x, es, |es|, k, i);
  }

  lemma {:induction false} CallCount(x: Executor, es: seq<Exp>, n: nat, k: nat)
    requires n <= |es|
    ensures |Calls(x, es, n, k)| == Size(es, n)
    ensures n == |es| ==> |Calls(x, es, n, k)| == Total(es)
    decreases es, n
  {
    if n > 0 {
      CallCount(x, es, n - 1, k);
      CallCount(x, es[n - 1].below, |es[n - 1].below|, k + Size(es, n - 1));
    }
  }

  /** Everything about the first n siblings depends on those n siblings only. */
  lemma {:induction false} PrefixAgree(x: Executor, es: seq<Exp>, fs: seq<Exp>, n: nat, k: nat)
    requires n <= |es| && n <= |fs|
    requires forall i :: 0 <= i < n ==> es[i] == fs[i]
    ensures Size(es, n) == Size(fs, n)
    ensures Views(x, es, n, k) == Views(x, fs, n, k)
    ensures Calls(x, es, n, k) == Calls(x, fs, n, k)
    ensures Succeeds(x, es, n, k) <==> Succeeds(x, fs, n, k)
    decreases n
  {
    if n > 0 {
      var e := es[n - 1];
      PrefixAgree(x, es, fs, n - 1, k);
      assert e == fs[n - 1];
    }
  }

  lemma {:induction false} SizeAgree(es: seq<Exp>, fs: seq<Exp>, n: nat)
    requires n <= |es| && n <= |fs|
    requires forall i :: 0 <= i < n ==> es[i] == fs[i]
    ensures Size(es, n) == Size(fs, n)
    decreases n
  {
    if n > 0 {
      SizeAgree(es, fs, n - 1);
      assert es[n - 1] == fs[n - 1];
    }
  }

  lemma {:induction false} AdmissibleExtend(f: Finder, steps: seq<ChainStep>, es: seq<Exp>, e: Exp, depth: nat, seen: set<string>)
    requires |es| < |steps|
    requires Admissible(f, steps[..|es|], es, depth, seen)
    requires e.step == steps[|es|] && Target(f, e.step) == Some(e.target)
    requires UsableAlias(e.step.alias) && HasRef(e.step)
    requires forall i :: 0 <= i < |es| ==> es[i].step.alias != e.step.alias
    requires VisitKey(e.target, e.step) !in seen
    requires Admissible(f, e.target.chain, e.below, depth + 1, seen + {VisitKey(e.target, e.step)})
    ensures Admissible(f, steps[..|es| + 1], es + [e], depth, seen)
  {
    var fs := es + [e];
    assert forall i :: 0 <= i < |es| ==> fs[i] == es[i] && steps[..|es| + 1][i] == steps[..|es|][i];
  }

  /** A chain whose first steps run and whose next step runs too. */
  lemma {:induction false} RunsExtend(f: Finder, x: Executor, steps: seq<ChainStep>, es: seq<Exp>, e: Exp, depth: nat, seen: set<string>, k: nat)
    requires |es| < |steps|
    requires Runs(f, x, steps[..|es|], es, depth, seen, k)
    requires e.step == steps[|es|] && Target(f, e.step) == Some(e.target)
    requires StepAdmitted(f, e.step, Views(x, es, |es|, k), seen)
    requires Runs(f, x, e.target.chain, e.below, depth + 1, seen + {VisitKey(e.target, e.step)}, k + Total(es))
    requires k + Total(es) + Total(e.below) < MAX_STEPS
    requires OwnCall(x, e, k + Total(es)).outcome.err == None
    ensures Runs(f, x, steps[..|es| + 1], es + [e], depth, seen, k)
  {
    hide Views, Calls, OwnCall, Succeeds, Size, Admissible, IsIdentifier;
    forall i | 0 <= i < |es| ensures es[i].step.alias != e.step.alias {
      ViewsAreOwnAliases(x, es, |es|, k, es[i].step.alias);
    }
    AdmissibleExtend(f, steps, es, e, depth, seen);
    PlaySnoc(x, es, e, k);
  }

  lemma {:induction false} PlaySnoc(x: Executor, es: seq<Exp>, e: Exp, k: nat)
    ensures Views(x, es + [e], |es| + 1, k) ==
            Views(x, es, |es|, k)[e.step.alias := OwnCall(x, e, k + Total(es)).outcome.view]
    ensures Calls(x, es + [e], |es| + 1, k) == Calls(x, es, |es|, k) + Subtree(x, e, k + Total(es))
    ensures Total(es + [e]) == Total(es) + Total(e.below) + 1
    ensures Succeeds(x, es + [e], |es| + 1, k) <==>
            && Succeeds(x, es, |es|, k)
            && Succeeds(x, e.below, |e.below|, k + Total(es))
            && OwnCall(x, e, k + Total(es)).outcome.err == None
  {
    var fs := es + [e];
    PrefixAgree(x, es, fs, |es|, k);
    assert fs[|es|] == e;
  }

  /** Conversely, if the whole chain runs, its expansion continues the part already run, and the next
      step passes every test ... */
  lemma {:induction false} ForcedRun(f: Finder, x: Executor, steps: seq<ChainStep>, es: seq<Exp>, depth: nat, seen: set<string>, k: nat, fs: seq<Exp>)
    requires |es| < |steps|
    requires Runs(f, x, steps[..|es|], es, depth, seen, k)
    requires Runs(f, x, steps, fs, depth, seen, k)
    ensures |fs| == |steps|
    ensures var e := fs[|es|];
            && Runs(f, x, e.target.chain, e.below, depth + 1, seen + {VisitKey(e.target, e.step)}, k + Total(es))
            && k + Total(es) + Total(e.below) < MAX_STEPS
            && OwnCall(x, e, k + Total(es)).outcome.err == None
  {
    hide Views, Calls, OwnCall, Succeeds;
    ForcedPrefix(f, steps, es, depth, seen, fs);
    SizeAgree(fs, es, |es|);
    RunsAt(f, x, steps, fs, depth, seen, k, |es|, k + Total(es));
  }

  lemma {:induction false} NotAmongViews(x: Executor, es: seq<Exp>, k: nat, alias: string)
    requires forall j :: 0 <= j < |es| ==> es[j].step.alias != alias
    ensures alias !in Views(x, es, |es|, k)
  {
    ViewsAreOwnAliases(x, es, |es|, k, alias);
  }

  /** ... which for the part that does not execute anything says: */
  lemma {:induction false} ForcedPrefix(f: Finder, steps: seq<ChainStep>, es: seq<Exp>, depth: nat, seen: set<string>, fs: seq<Exp>)
    requires |es| < |steps|
    requires Admissible(f, steps[..|es|], es, depth, seen)
    requires Admissible(f, steps, fs, depth, seen)
    ensures |fs| == |steps| && fs[..|es|] == es
    ensures forall j :: 0 <= j < |es| ==> es[j] == fs[j] && es[j].step.alias != fs[|es|].step.alias
    ensures var e := fs[|es|];
            && e.step == steps[|es|] && Target(f, e.step) == Some(e.target)
            && UsableAlias(e.step.alias) && HasRef(e.step)
            && VisitKey(e.target, e.step) !in seen
  {
    var i := |es|;
    assert IsExpansion(f, steps[..i], fs[..i]);
    ExpansionUnique(f, steps[..i], es, fs[..i]);
    assert forall j :: 0 <= j < i ==> fs[..i][j] == fs[j];
  }

  lemma {:induction false} OwnCallIs(x: Executor, e: Exp, at: nat, views: map<string, View>, o: Outcome)
    requires views == Views(x, e.below, |e.below|, at)
    requires o == x(at + Total(e.below), e.target, views)
    ensures OwnCall(x, e, at) == Call(e.step, e.target, views, o)
    ensures Subtree(x, e, at) == Calls(x, e.below, |e.below|, at) + [Call(e.step, e.target, views, o)]
  {
  }

  lemma {:induction false} NothingRuns(f: Finder, x: Executor, steps: seq<ChainStep>, depth: nat, seen: set<string>, k: nat)
    requires depth < MAX_DEPTH && k <= MAX_STEPS
    ensures Runs(f, x, steps[..0], [], depth, seen, k)
    ensures Views(x, [], 0, k) == map[] && Calls(x, [], 0, k) == []
  {
  }

  // ----- the three ways a chain can fail at its next step -----

  ghost predicate CannotRun(f: Finder, x: Executor, steps: seq<ChainStep>, depth: nat, seen: set<string>, k: nat) {
    forall fs :: !Runs(f, x, steps, fs, depth, seen, k)
  }

  lemma {:induction false} TooDeep(f: Finder, x: Executor, steps: seq<ChainStep>, depth: nat, seen: set<string>, k: nat)
    requires depth >= MAX_DEPTH
    ensures CannotRun(f, x, steps, depth, seen, k)
  {
  }

  lemma {:induction false} StuckAtStep(f: Finder, x: Executor, steps: seq<ChainStep>, es: seq<Exp>, depth: nat, seen: set<string>, k: nat)
    requires |es| < |steps| && Runs(f, x, steps[..|es|], es, depth, seen, k)
    requires !StepAdmitted(f, steps[|es|], Views(x, es, |es|, k), seen)
    ensures CannotRun(f, x, steps, depth, seen, k)
  {
    forall fs: seq<Exp> ensures !Runs(f, x, steps, fs, depth, seen, k) {
      if Runs(f, x, steps, fs, depth, seen, k) {
        ForcedPrefix(f, steps, es, depth, seen, fs);
        NotAmongViews(x, es, k, fs[|es|].step.alias);
      }
    }
  }

  lemma {:induction false} StuckBelowStep(f: Finder, x: Executor, steps: seq<ChainStep>, es: seq<Exp>, depth: nat, seen: set<string>, k: nat, key: string)
    requires |es| < |steps| && Runs(f, x, steps[..|es|], es, depth, seen, k)
    requires Target(f, steps[|es|]).Some? && key == VisitKey(Target(f, steps[|es|]).value, steps[|es|])
    requires CannotRun(f, x, Target(f, steps[|es|]).value.chain, depth + 1, seen + {key}, k + Total(es))
    ensures CannotRun(f, x, steps, depth, seen, k)
  {
    forall fs: seq<Exp> ensures !Runs(f, x, steps, fs, depth, seen, k) {
      if Runs(f, x, steps, fs, depth, seen, k) {
        ForcedPrefix(f, steps, es, depth, seen, fs);
        ForcedRun(f, x, steps, es, depth, seen, k, fs);
      }
    }
  }

  lemma {:induction false} StuckExecuting(f: Finder, x: Executor, steps: seq<ChainStep>, es: seq<Exp>, depth: nat, seen: set<string>, k: nat, e: Exp)
    requires |es| < |steps| && Runs(f, x, steps[..|es|], es, depth, seen, k)
    requires e.step == steps[|es|] && Target(f, e.step) == Some(e.target)
    requires Runs(f, x, e.target.chain, e.below, depth + 1, seen + {VisitKey(e.target, e.step)}, k + Total(es))
    requires k + Total(es) + Total(e.below) >= MAX_STEPS || OwnCall(x, e, k + Total(es)).outcome.err.Some?
    ensures CannotRun(f, x, steps, depth, seen, k)
  {
    forall fs: seq<Exp> ensures !Runs(f, x, steps, fs, depth, seen, k) {
      if Runs(f, x, steps, fs, depth, seen, k) {
        ForcedPrefix(f, steps, es, depth, seen, fs);
        ForcedRun(f, x, steps, es, depth, seen, k, fs);
        ExpansionUnique(f, e.target.chain, e.below, fs[|es|].below);
      }
    }
  }

  // ----- what the order of calls is -----

  function PostOrder(es: seq<Exp>): seq<Exp>
    decreases es
  {
    if es == [] then []
    else PostOrder(es[0].below) + [es[0]] + PostOrder(es[1..])
  }

  lemma {:induction false} PostOrderSnoc(es: seq<Exp>, e: Exp)
    ensures PostOrder(es + [e]) == PostOrder(es) + PostOrder(e.below) + [e]
    decreases |es|
  {
    if es == [] {
      assert ([e])[1..] == [];
      assert es + [e] == [e];
    } else {
      assert (es + [e])[1..] == es[1..] + [e];
      PostOrderSnoc(es[1..], e);
    }
  }

  ghost predicate SameOrder(calls: seq<Call>, order: seq<Exp>) {
    && |calls| == |order|
    && forall i :: 0 <= i < |order| ==> calls[i].step == order[i].step && calls[i].target == order[i].target
  }

  lemma {:induction false} SameOrderConcat(xs: seq<Call>, ys: seq<Call>, es: seq<Exp>, fs: seq<Exp>)
    requires SameOrder(xs, es) && SameOrder(ys, fs)
    ensures SameOrder(xs + ys, es + fs)
  {
  }

  /** The executions are the post-order of the expansion: every request after its whole chain, siblings
      in declaration order. */
  lemma {:induction false} CallsArePostOrder(x: Executor, es: seq<Exp>, n: nat, k: nat)
    requires n <= |es|
    ensures SameOrder(Calls(x, es, n, k), PostOrder(es[..n]))
    decreases es, n
  {
    if n > 0 {
      var e, at := es[n - 1], k + Size(es, n - 1);
      CallsArePostOrder(x, es, n - 1, k);
      SubtreeIsPostOrder(x, e, at);
      assert es[..n] == es[..n - 1] + [e];
      PostOrderSnoc(es[..n - 1], e);
      SameOrderConcat(Calls(x, es, n - 1, k), Subtree(x, e, at), PostOrder(es[..n - 1]), PostOrder(e.below) + [e]);
      assert PostOrder(es[..n]) == PostOrder(es[..n - 1]) + (PostOrder(e.below) + [e]);
    }
  }

  lemma {:induction false} SubtreeIsPostOrder(x: Executor, e: Exp, k: nat)
    ensures SameOrder(Subtree(x, e, k), PostOrder(e.below) + [e])
    decreases e, 0
  {
    CallsArePostOrder(x, e.below, |e.below|, k);
    assert e.below[..|e.below|] == e.below;
    SameOrderConcat(Calls(x, e.below, |e.below|, k), [OwnCall(x, e, k)], PostOrder(e.below), [e]);
  }

  /** A parent sees exactly the aliases of its own steps ... */
  lemma {:induction false} ViewsAreOwnAliases(x: Executor, es: seq<Exp>, n: nat, k: nat, alias: string)
    requires n <= |es|
    ensures alias in Views(x, es, n, k) <==> exists i :: 0 <= i < n && es[i].step.alias == alias
    decreases n
  {
    if n > 0 {
      ViewsAreOwnAliases(x, es, n - 1, k, alias);
    }
  }

  /** ... each bound to the view that its execution returned ... */
  lemma {:induction false} ViewsAreOwnViews(x: Executor, es: seq<Exp>, n: nat, k: nat, i: nat)
    requires WellFormed(es) && i < n <= |es|
    ensures es[i].step.alias in Views(x, es, n, k)
    ensures Views(x, es, n, k)[es[i].step.alias] == OwnCall(x, es[i], k + Size(es, i)).outcome.view
    decreases n
  {
    hide OwnCall, Size;
    if i < n - 1 {
      ViewsAreOwnViews(x, es, n - 1, k, i);
    }
  }

  /** ... and that execution is the call found in the run right after the calls of the step's own chain. */
  lemma {:induction false} OwnCallInRun(x: Executor, es: seq<Exp>, n: nat, k: nat, i: nat)
    requires i < n <= |es|
    ensures Size(es, i) + Total(es[i].below) < |Calls(x, es, n, k)|
    ensures Calls(x, es, n, k)[Size(es, i) + Total(es[i].below)] == OwnCall(x, es[i], k + Size(es, i))
    decreases n
  {
    CallCount(x, es, n - 1, k);
    CallCount(x, es[n - 1].below, |es[n - 1].below|, k + Size(es, n - 1));
    if i < n - 1 {
      OwnCallInRun(x, es, n - 1, k, i);
    }
  }

  // ----- the reachable chain graph -----

  /** w follows chain steps from a list of steps through the requests they resolve to. */
  ghost predicate IsWalk(f: Finder, steps: seq<ChainStep>, w: seq<ChainStep>)
    decreases w
  {
    w != [] ==>
      && w[0] in steps
      && Target(f, w[0]).Some?
      && IsWalk(f, Target(f, w[0]).value.chain, w[1..])
  }

  function StepKey(f: Finder, s: ChainStep): string {
    match Target(f, s)
    case None => ""
    case Some(t) => VisitKey(t, s)
  }

  /** A chain that runs has no cycle: every walk through the chain graph is at most seven steps long
      and never meets a visit key twice, nor one of `seen`. */
  lemma {:induction false} WalksNeverReturn(f: Finder, steps: seq<ChainStep>, es: seq<Exp>, seen: set<string>, n: nat, w: seq<ChainStep>)
    requires IsExpansion(f, steps, es) && NoRepeat(es, seen) && AtMostDeep(es, n)
    requires IsWalk(f, steps, w)
    ensures |w| <= n
    ensures forall i :: 0 <= i < |w| ==> StepKey(f, w[i]) !in seen
    ensures forall i, j :: 0 <= i < j < |w| ==> StepKey(f, w[i]) != StepKey(f, w[j])
    decreases |w|
  {
    if w != [] {
      var i :| 0 <= i < |steps| && steps[i] == w[0];
      var key := VisitKey(es[i].target, es[i].step);
      WalksNeverReturn(f, es[i].target.chain, es[i].below, seen + {key}, n - 1, w[1..]);
      forall j | 0 < j < |w| ensures StepKey(f, w[j]) !in seen + {key} {
        assert w[j] == w[1..][j - 1];
      }
      forall i', j | 0 < i' < j < |w| ensures StepKey(f, w[i']) != StepKey(f, w[j]) {
        assert w[j] == w[1..][j - 1] && w[i'] == w[1..][i' - 1];
      }
    }
  }
}

/**
 * The test context a box function receives (go/testcontext.go, the `S`
 * structure of go/specimen/structure.go and the recover handler of
 * go/specimen/run.go:145-166).
 *
 * A box function is user code. It is modelled as a script of the calls it
 * makes on the context, ending when the script runs out (a normal return),
 * when it calls `Abort` (which never returns normally) or when it panics.
 */
module Context {
  import opened Base

  datatype FailStatus = Pristine | Failed | Aborted | Panicked

  /** The per-tile part of `S`: reset before every tile. */
  datatype TileState = TileState(status: FailStatus, failInfo: seq<string>)

  /** The value a panic carries, as the recover handler distinguishes it. */
  datatype Payload = Text(text: string) | Error(message: string) | Other | Nil

  /** How a box function left: by returning, or by unwinding with a panic value. */
  datatype Exit = Returned | Unwound(payload: Payload)

  /** One call a box function makes. */
  datatype Step =
    | Fail(info: string)
    | Abort(info: string)
      /** `ExpectEqual(value, wanted, context)`; `diff` is what the deep-equality library reports, empty when equal. */
    | ExpectEqual(diff: seq<string>, context: string)
    | Raise(payload: Payload)

  type Script = seq<Step>

  /** `p` is a prefix of `s`. */
  predicate StartsWith<T(==)>(s: seq<T>, p: seq<T>)
  {
    |p| <= |s| && s[..|p|] == p
  }

  /** The info entry a call saves: only a non-empty one is kept. */
  function Noted(info: string): (r: seq<string>)
    ensures r == [] <==> info == ""
    ensures r != [] ==> r == [info]
  {
    if |info| > 0 then [info] else []
  }

  /** `S.Fail`. */
  function Failing(t: TileState, info: string): (r: TileState)
    ensures r.status == Failed
    ensures |r.failInfo| == |t.failInfo| + (if info == "" then 0 else 1)
    ensures StartsWith(r.failInfo, t.failInfo)
    ensures info != "" ==> r.failInfo[|t.failInfo|] == info
  {
    TileState(Failed, t.failInfo + Noted(info))
  }

  /** `S.Abort`, up to the point where it panics. */
  function Aborting(t: TileState, info: string): (r: TileState)
    ensures r.status == Aborted
    ensures |r.failInfo| == |t.failInfo| + (if info == "" then 0 else 1)
    ensures StartsWith(r.failInfo, t.failInfo)
    ensures info != "" ==> r.failInfo[|t.failInfo|] == info
  {
    TileState(Aborted, t.failInfo + Noted(info))
  }

  /** The prefix ExpectEqual puts before the differences. */
  function ContextPrefix(context: string): (p: string)
    ensures p == "" <==> context == ""
    ensures context != "" ==> StartsWith(p, "(" + context + "): ")
  {
    if |context| > 0 then "(" + context + "): " else ""
  }

  /** `S.ExpectEqual`. */
  function Expecting(t: TileState, diff: seq<string>, context: string): (r: TileState)
    ensures diff == [] ==> r == t
    ensures diff != [] ==> r.status == Failed && StartsWith(r.failInfo, t.failInfo) && |r.failInfo| <= |t.failInfo| + 1
    ensures diff != [] && context != "" ==> |r.failInfo| == |t.failInfo| + 1 && StartsWith(r.failInfo[|t.failInfo|], "(" + context + "): ")
  {
    if diff == [] then t else Failing(t, ContextPrefix(context) + Join(diff, ", "))
  }

  /** `strings.ReplaceAll(s, "\n", "\n>   ")`. */
  function Quoted(s: string): (r: string)
    ensures |r| >= |s|
  {
    if s == [] then []
    else (if s[0] == '\n' then "\n>   " else [s[0]]) + Quoted(s[1..])
  }

  /** The message of Go's `runtime.PanicNilError`. */
  const PanicNilMessage: string := "panic called with nil argument"

  /**
   * What `recover()` returns for a panic value. Since Go 1.21 (which the
   * `slices` import of go/specimen/orderedstringmap/orderedstringmap.go:3
   * requires), `panic(nil)` is recovered as a `*runtime.PanicNilError`.
   */
  function Recover(p: Payload): (r: Payload)
    ensures !r.Nil?
    ensures !p.Nil? ==> r == p
    ensures p.Nil? ==> r.Error? && r.message == PanicNilMessage
  {
    if p.Nil? then Error(PanicNilMessage) else p
  }

  /** The info entry the recover handler saves for a recovered value and a stack trace. */
  function PanicInfo(payload: Payload, stack: string): (r: string)
    ensures payload.Text? ==> StartsWith(r, "\n>>> " + payload.text)
    ensures payload.Error? ==> StartsWith(r, "\n>>> " + payload.message)
    ensures r != ""
  {
    var report := if |stack| > 0 && stack[|stack| - 1] == '\n' then stack[..|stack| - 1] else stack;
    var info := "\n>   " + Quoted(report);
    match payload
    case Text(v) => "\n>>> " + v + info
    case Error(m) => "\n>>> " + m + info
    case _ => info
  }

  /**
   * go/specimen/run.go:146-164: the deferred handler. `recover()` gives nil
   * only after a normal return; a panic while the status is Aborted (Abort's
   * own `panic(nil)` included) changes nothing; any other panic, `panic(nil)`
   * included, marks the tile Panicked and saves one entry.
   */
  function Recovered(t: TileState, exit: Exit, stack: string): (r: TileState)
    ensures exit.Returned? || t.status == Aborted ==> r == t
    ensures exit.Unwound? && t.status != Aborted ==>
      r.status == Panicked && |r.failInfo| == |t.failInfo| + 1 && StartsWith(r.failInfo, t.failInfo)
    ensures exit == Unwound(Nil) && t.status != Aborted ==>
      StartsWith(r.failInfo[|t.failInfo|], "\n>>> " + PanicNilMessage)
  {
    if exit.Returned? then t
    else if t.status == Aborted then t
    else TileState(Panicked, t.failInfo + [PanicInfo(Recover(exit.payload), stack)])
  }

  /** The steps of `script` that run: all of them, or those up to the first Abort or panic. */
  function Executed(script: Script): (ex: Script)
    ensures |ex| <= |script| && ex == script[..|ex|]
    ensures forall i :: 0 <= i < |ex| - 1 ==> !Stops(ex[i])
    ensures ex == script || (ex != [] && Stops(ex[|ex| - 1]))
  {
    if script == [] then []
    else if Stops(script[0]) then [script[0]]
    else [script[0]] + Executed(script[1..])
  }

  predicate Stops(step: Step)
  {
    step.Abort? || step.Raise?
  }

  /** The state after a step that returns normally. */
  function After(t: TileState, step: Step): TileState
    requires !Stops(step)
  {
    match step
    case Fail(info) => Failing(t, info)
    case ExpectEqual(diff, context) => Expecting(t, diff, context)
  }

  /** The state and the exit a box function reaches, run from `t`. */
  function Played(t: TileState, script: Script): (TileState, Exit)
    decreases script
  {
    if script == [] then (t, Returned)
    else if !Stops(script[0]) then Played(After(t, script[0]), script[1..])
    else match script[0]
      case Abort(info) => (Aborting(t, info), Unwound(Nil))
      case Raise(p) => (t, Unwound(p))
  }

  /** runBoxFunction: the script, then the recover handler. */
  function RunBox(t: TileState, script: Script, stack: string): TileState
  {
    var (u, exit) := Played(t, script);
    Recovered(u, exit, stack)
  }

  /** A step that leaves a pristine tile pristine. */
  predicate Harmless(step: Step)
  {
    step.ExpectEqual? && step.diff == []
  }

  /** One step that returns normally, then the rest of the script. */
  lemma Unrolled(t: TileState, script: Script, stack: string)
    requires script != [] && !Stops(script[0])
    ensures RunBox(t, script, stack) == RunBox(After(t, script[0]), script[1..], stack)
    ensures Executed(script) == [script[0]] + Executed(script[1..])
  {
  }

  /** The entries saved before a box function runs are kept. */
  lemma {:induction false} TileKeepsInfo(t: TileState, script: Script, stack: string)
    decreases script
    ensures StartsWith(RunBox(t, script, stack).failInfo, t.failInfo)
  {
    if script != [] && !Stops(script[0]) {
      var u := After(t, script[0]);
      TileKeepsInfo(u, script[1..], stack);
      Unrolled(t, script, stack);
      assert StartsWith(u.failInfo, t.failInfo);
    }
  }

  /** A tile that was not aborted before ends Aborted iff its box function calls Abort. */
  lemma {:induction false} TileAborted(t: TileState, script: Script, stack: string)
    requires t.status != Aborted
    decreases script
    ensures RunBox(t, script, stack).status == Aborted <==> exists s :: s in Executed(script) && s.Abort?
  {
    if script != [] && !Stops(script[0]) {
      TileAborted(After(t, script[0]), script[1..], stack);
      Unrolled(t, script, stack);
    }
  }

  /** A tile that was not aborted before ends Panicked iff its box function panics, with any value, `nil` included. */
  lemma {:induction false} TilePanicked(t: TileState, script: Script, stack: string)
    requires t.status != Aborted && t.status != Panicked
    decreases script
    ensures RunBox(t, script, stack).status == Panicked <==> exists s :: s in Executed(script) && s.Raise?
  {
    if script != [] && !Stops(script[0]) {
      TilePanicked(After(t, script[0]), script[1..], stack);
      Unrolled(t, script, stack);
    }
  }

  /** A tile ends Pristine iff it started Pristine and every step its box function ran was harmless. */
  lemma {:induction false} TilePristine(t: TileState, script: Script, stack: string)
    decreases script
    ensures RunBox(t, script, stack).status == Pristine <==> t.status == Pristine && forall s :: s in Executed(script) ==> Harmless(s)
  {
    if script != [] && !Stops(script[0]) {
      TilePristine(After(t, script[0]), script[1..], stack);
      Unrolled(t, script, stack);
      assert After(t, script[0]).status == Pristine <==> t.status == Pristine && Harmless(script[0]);
    } else if script != [] {
      assert Executed(script) == [script[0]];
    }
  }

  /** A box function that calls `panic(nil)` itself fails its tile as Panicked, with the PanicNilError message. */
  lemma NilPanicPanics(stack: string)
    ensures var r := RunBox(TileState(Pristine, []), [Raise(Nil)], stack);
      && r.status == Panicked && |r.failInfo| == 1
      && StartsWith(r.failInfo[0], "\n>>> " + PanicNilMessage)
  {
    var t := TileState(Pristine, []);
    assert Played(t, [Raise(Nil)]) == (t, Unwound(Nil));
  }

  /** The script of a box function that only calls Fail, once per info. */
  function Fails(infos: seq<string>): (script: Script)
    ensures |script| == |infos|
    ensures forall i :: 0 <= i < |infos| ==> script[i] == Fail(infos[i])
  {
    if infos == [] then [] else [Fail(infos[0])] + Fails(infos[1..])
  }

  /** The non-empty entries of `infos`, in order. */
  function FailInfos(infos: seq<string>): (r: seq<string>)
    ensures |r| <= |infos|
    ensures forall x :: x in r ==> x in infos && x != ""
  {
    if infos == [] then [] else Noted(infos[0]) + FailInfos(infos[1..])
  }

  /** Repeated Fail calls: the status is Failed and every non-empty info is appended in call order. */
  lemma {:induction false} FailsAccumulate(t: TileState, infos: seq<string>, stack: string)
    requires t.status == Pristine || t.status == Failed
    decreases infos
    ensures var r := RunBox(t, Fails(infos), stack);
      && r.failInfo == t.failInfo + FailInfos(infos)
      && (infos != [] ==> r.status == Failed)
      && (infos == [] ==> r == t)
  {
    if infos != [] {
      var u := Failing(t, infos[0]);
      FailsAccumulate(u, infos[1..], stack);
      assert Fails(infos)[1..] == Fails(infos[1..]);
      assert RunBox(t, Fails(infos), stack) == RunBox(u, Fails(infos[1..]), stack);
    }
  }

  /** Nothing after an Abort runs: the tile ends Aborted with Abort's entry last. */
  lemma AbortIsFinal(t: TileState, info: string, rest: Script, stack: string)
    ensures RunBox(t, [Abort(info)] + rest, stack) == Aborting(t, info)
  {
    assert ([Abort(info)] + rest)[0] == Abort(info);
  }

  /** The run-wide part of `S`: the tile counters and the failure report. */
  datatype Counts = Counts(tileCount: nat, passed: nat, failed: nat, aborted: nat, panicked: nat, failureReport: seq<string>)

  /**
   * The context handed to box functions, with the counters and the report
   * of go/specimen/run.go (`tileCount`, `tilePassed`, ... `failureReport`)
   * and the per-tile `status` and `failInfo`.
   */
  class S {
    var tileCount: nat
    var tilePassed: nat
    var tileFailed: nat
    var tileAborted: nat
    var tilePanicked: nat
    var failureReport: seq<string>
    var status: FailStatus
    var failInfo: seq<string>

    function State(): TileState
      reads this
    {
      TileState(status, failInfo)
    }

    /** The counters and the report, which only the run loop changes. */
    function Totals(): Counts
      reads this
    {
      Counts(tileCount, tilePassed, tileFailed, tileAborted, tilePanicked, failureReport)
    }

    /** `S{T: t}`: every field at its zero value. */
    constructor ()
      ensures Totals() == Counts(0, 0, 0, 0, 0, [])
      ensures State() == TileState(Pristine, [])
    {
      tileCount, tilePassed, tileFailed, tileAborted, tilePanicked := 0, 0, 0, 0, 0;
      failureReport := [];
      status, failInfo := Pristine, [];
    }

    /** go/testcontext.go:10-15. */
    method Fail(info: string)
      modifies this
      ensures State() == Failing(old(State()), info)
      ensures Totals() == old(Totals())
    {
      status := Failed;
      if |info| > 0 {
        failInfo := failInfo + [info];
      }
    }

    /**
     * go/testcontext.go:18-24. Abort does not return normally: the caller
     * gets the unwinding exit, which a box function propagates.
     */
    method Abort(info: string) returns (exit: Exit)
      modifies this
      ensures exit == Unwound(Nil)
      ensures State() == Aborting(old(State()), info)
      ensures Totals() == old(Totals())
    {
      status := Aborted;
      if |info| > 0 {
        failInfo := failInfo + [info];
      }
      exit := Unwound(Nil);
    }

    /** go/testcontext.go:27-34. */
    method ExpectEqual(diff: seq<string>, context: string)
      modifies this
      ensures State() == Expecting(old(State()), diff, context)
      ensures Totals() == old(Totals())
    {
      if diff != [] {
        var prefix := context;
        if |context| > 0 {
          prefix := "(" + context + "): ";
        }
        Fail(prefix + Join(diff, ", "));
      }
    }

    /**
     * go/specimen/run.go:145-166: run the box function's calls, stopping at
     * an Abort or a panic, then the recover handler.
     */
    method RunBoxFunction(script: Script, stack: string)
      modifies this
      ensures State() == RunBox(old(State()), script, stack)
      ensures Totals() == old(Totals())
    {
      var exit := Returned;
      var k := 0;
      while k < |script|
        invariant k <= |script|
        invariant Totals() == old(Totals())
        invariant Played(old(State()), script) == (if exit.Returned? then Played(State(), script[k..]) else (State(), exit))
      {
        var step := script[k];
        assert script[k..][0] == step && script[k..][1..] == script[k + 1..];
        match step {
          case Fail(info) =>
            Fail(info);
            k := k + 1;
          case ExpectEqual(diff, context) =>
            ExpectEqual(diff, context);
            k := k + 1;
          case Abort(info) =>
            exit := Abort(info);
            break;
          case Raise(p) =>
            exit := Unwound(p);
            break;
        }
      }
      if exit.Unwound? {
        if status != Aborted {
          var report := stack;
          if |stack| > 0 && stack[|stack| - 1] == '\n' {
            report := stack[..|stack| - 1];
          }
          var info := "\n>   " + Quoted(report);
          match exit.payload {
            case Text(v) => info := "\n>>> " + v + info;
            case Error(m) => info := "\n>>> " + m + info;
            case Nil => info := "\n>>> " + PanicNilMessage + info;
            case Other =>
          }
          status := Panicked;
          failInfo := failInfo + [info];
        }
      }
    }
  }
}

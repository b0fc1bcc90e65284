/**
 * The control loop of package grocybarcode: it reads barcodes one after
 * another, switches the current inventory action on the three mode tokens
 * and hands every other barcode to the current action.
 *
 * The reader is the finite sequence of what its successive reads return;
 * reading past its end is an end-of-stream error. Whether an action fails is
 * an oracle: `fails` holds the numbers, counted from zero, of the invocations
 * whose action returns an error.
 */
module GrocyBarcode {
  import opened Wrappers

  /** The inventory actions a barcode can be handed to. */
  datatype Action = AddOrCreate | Consume | Open

  /** The mode-changing barcodes and the action each selects. */
  const Modes: seq<(string, Action)> := [("addcreate", AddOrCreate), ("consume", Consume), ("open", Open)]

  /** The action `barcode` selects in `table`, or None when it is not listed. */
  function Lookup(table: seq<(string, Action)>, barcode: string): (r: Option<Action>)
    ensures r.Some? ==> (barcode, r.value) in table
    ensures r.None? ==> forall i :: 0 <= i < |table| ==> table[i].0 != barcode
    decreases |table|
  {
    if table == [] then None
    else if table[0].0 == barcode then Some(table[0].1)
    else Lookup(table[1..], barcode)
  }

  /** The action a mode-changing barcode selects, or None for any other barcode. */
  function Handler(barcode: string): (r: Option<Action>)
    ensures r.Some? ==> (barcode, r.value) in Modes
    ensures r.None? ==> forall i :: 0 <= i < |Modes| ==> Modes[i].0 != barcode
  {
    Lookup(Modes, barcode)
  }

  /**
   * Handler recognises exactly the three tokens, each selecting its own
   * action; every other barcode, the empty one included, selects nothing.
   */
  lemma HandlerTokens(barcode: string)
    ensures Handler(barcode) == Some(AddOrCreate) <==> barcode == "addcreate"
    ensures Handler(barcode) == Some(Consume) <==> barcode == "consume"
    ensures Handler(barcode) == Some(Open) <==> barcode == "open"
    ensures Handler(barcode).None? <==> barcode != "addcreate" && barcode != "consume" && barcode != "open"
  {
    assert Modes[1..] == [("consume", Consume), ("open", Open)];
    assert Modes[1..][1..] == [("open", Open)];
    assert Modes[1..][1..][1..] == [];
  }

  /** The result of one read of the barcode reader. */
  datatype Scan = Scanned(barcode: string) | ReadFailed

  /** One call of an action, and whether it reported an error (which is logged). */
  datatype Invocation = Invocation(action: Action, barcode: string, failed: bool)

  /** The error Start returns: the read that failed, counted from zero. */
  datatype StartError = ErrorReadingBarcode(read: nat)

  /** What the loop did: the actions it invoked and the read that ended it. */
  datatype Run = Run(trace: seq<Invocation>, stoppedAt: nat)

  function IsData(s: Scan): bool {
    s.Scanned? && Handler(s.barcode).None?
  }

  /** How many of the reads are barcodes that are not mode tokens. */
  function DataScans(scans: seq<Scan>): nat {
    if scans == [] then 0 else (if IsData(scans[0]) then 1 else 0) + DataScans(scans[1..])
  }

  /** The current action after the scans, starting from `mode`: the last token wins. */
  function ModeAfter(scans: seq<Scan>, mode: Action): Action {
    if scans == [] then mode
    else if scans[0].Scanned? && Handler(scans[0].barcode).Some? then
      ModeAfter(scans[1..], Handler(scans[0].barcode).value)
    else ModeAfter(scans[1..], mode)
  }

  /**
   * The loop from the current action `mode`, having made `n` invocations so
   * far: it stops at the first failed read or at the end of the reader, and
   * invokes the current action once for every other barcode before that.
   */
  function Dispatch(scans: seq<Scan>, mode: Action, fails: iset<nat>, n: nat): (r: Run)
    ensures r.stoppedAt <= |scans|
    decreases |scans|
  {
    if scans == [] || scans[0].ReadFailed? then Run([], 0)
    else
      var barcode := scans[0].barcode;
      match Handler(barcode)
      case Some(a) =>
        var rest := Dispatch(scans[1..], a, fails, n);
        Run(rest.trace, rest.stoppedAt + 1)
      case None =>
        var rest := Dispatch(scans[1..], mode, fails, n + 1);
        Run([Invocation(mode, barcode, n in fails)] + rest.trace, rest.stoppedAt + 1)
  }

  /** The loop stops at the first failed read, or at the end of the reader. */
  lemma {:induction false} StopsAtFirstFailedRead(scans: seq<Scan>, mode: Action, fails: iset<nat>, n: nat)
    ensures var r := Dispatch(scans, mode, fails, n);
      (forall j :: 0 <= j < r.stoppedAt ==> scans[j].Scanned?)
      && (r.stoppedAt < |scans| ==> scans[r.stoppedAt].ReadFailed?)
    decreases |scans|
  {
    if scans != [] && scans[0].Scanned? {
      var next := if Handler(scans[0].barcode).Some? then Handler(scans[0].barcode).value else mode;
      var m := if Handler(scans[0].barcode).Some? then n else n + 1;
      StopsAtFirstFailedRead(scans[1..], next, fails, m);
    }
  }

  /**
   * Before the loop stops, an action is invoked exactly once per barcode that
   * is not a token, and never for a token.
   */
  lemma {:induction false} OneInvocationPerDataBarcode(scans: seq<Scan>, mode: Action, fails: iset<nat>, n: nat)
    ensures var r := Dispatch(scans, mode, fails, n);
      |r.trace| == DataScans(scans[..r.stoppedAt])
      && (forall k :: 0 <= k < |r.trace| ==> Handler(r.trace[k].barcode).None?)
    decreases |scans|
  {
    if scans != [] && scans[0].Scanned? {
      var next := if Handler(scans[0].barcode).Some? then Handler(scans[0].barcode).value else mode;
      var m := if Handler(scans[0].barcode).Some? then n else n + 1;
      OneInvocationPerDataBarcode(scans[1..], next, fails, m);
      var rest := Dispatch(scans[1..], next, fails, m);
      assert scans[..rest.stoppedAt + 1][1..] == scans[1..][..rest.stoppedAt];
    }
  }

  /**
   * The loop: read, switch on a token without invoking anything, otherwise
   * invoke the current action and carry on whatever it returns; a failed read
   * ends the loop and is returned.
   */
  method Start(scans: seq<Scan>, fails: iset<nat>) returns (trace: seq<Invocation>, err: StartError)
    ensures Run(trace, err.read) == Dispatch(scans, AddOrCreate, fails, 0)
  {
    var handler := AddOrCreate;
    var i := 0;
    trace := [];
    while true
      invariant i <= |scans|
      invariant var rest := Dispatch(scans[i..], handler, fails, |trace|);
        Dispatch(scans, AddOrCreate, fails, 0) == Run(trace + rest.trace, i + rest.stoppedAt)
      decreases |scans| - i
    {
      if i == |scans| || scans[i].ReadFailed? {
        return trace, ErrorReadingBarcode(i);
      }
      var barcode := scans[i].barcode;
      ghost var tail := scans[i..];
      assert tail[0] == scans[i] && tail[1..] == scans[i + 1..];
      i := i + 1;

      var newHandler := Handler(barcode);
      if newHandler.Some? {
        TokenStep(tail, handler, fails, |trace|);
        handler := newHandler.value;
        continue;
      }

      DataStep(tail, handler, fails, |trace|);
      var failed := |trace| in fails;
      ghost var rest := Dispatch(scans[i..], handler, fails, |trace| + 1);
      assert trace + ([Invocation(handler, barcode, failed)] + rest.trace)
          == (trace + [Invocation(handler, barcode, failed)]) + rest.trace;
      trace := trace + [Invocation(handler, barcode, failed)];
    }
  }

  /** A token read switches the current action and invokes nothing. */
  lemma TokenStep(scans: seq<Scan>, mode: Action, fails: iset<nat>, n: nat)
    requires scans != [] && scans[0].Scanned? && Handler(scans[0].barcode).Some?
    ensures var rest := Dispatch(scans[1..], Handler(scans[0].barcode).value, fails, n);
      Dispatch(scans, mode, fails, n) == Run(rest.trace, rest.stoppedAt + 1)
  {
  }

  /** Any other barcode is handed to the current action, which stays current. */
  lemma DataStep(scans: seq<Scan>, mode: Action, fails: iset<nat>, n: nat)
    requires scans != [] && scans[0].Scanned? && Handler(scans[0].barcode).None?
    ensures var rest := Dispatch(scans[1..], mode, fails, n + 1);
      Dispatch(scans, mode, fails, n)
        == Run([Invocation(mode, scans[0].barcode, n in fails)] + rest.trace, rest.stoppedAt + 1)
  {
  }

  /**
   * Every barcode that is not a token is handed, exactly as read, to the action
   * selected by the last token before it, or to the action current at the
   * start when there was none; its invocation is numbered by the data barcodes
   * before it.
   */
  lemma {:induction false} LatestTokenSelectsAction(before: seq<Scan>, barcode: string, after: seq<Scan>, mode: Action, fails: iset<nat>, n: nat)
    requires forall j :: 0 <= j < |before| ==> before[j].Scanned?
    requires Handler(barcode).None?
    ensures var k := DataScans(before);
      var r := Dispatch(before + [Scanned(barcode)] + after, mode, fails, n);
      k < |r.trace| && r.trace[k] == Invocation(ModeAfter(before, mode), barcode, n + k in fails)
    decreases |before|
  {
    var whole := before + [Scanned(barcode)] + after;
    if before == [] {
      assert whole == [Scanned(barcode)] + after;
      assert whole[1..] == after;
    } else {
      assert whole[0] == before[0];
      assert whole[1..] == before[1..] + [Scanned(barcode)] + after;
      var b := before[0].barcode;
      if Handler(b).Some? {
        LatestTokenSelectsAction(before[1..], barcode, after, Handler(b).value, fails, n);
      } else {
        LatestTokenSelectsAction(before[1..], barcode, after, mode, fails, n + 1);
      }
    }
  }

  /** The first barcode that is not a token goes to add-or-create, the action current at the start. */
  lemma InitialActionIsAddOrCreate(before: seq<Scan>, barcode: string, after: seq<Scan>, fails: iset<nat>)
    requires forall j :: 0 <= j < |before| ==> before[j].Scanned? && Handler(before[j].barcode).None?
    requires Handler(barcode).None?
    ensures var r := Dispatch(before + [Scanned(barcode)] + after, AddOrCreate, fails, 0);
      |before| < |r.trace| && r.trace[|before|].action == AddOrCreate
  {
    LatestTokenSelectsAction(before, barcode, after, AddOrCreate, fails, 0);
    ModePersists(before, AddOrCreate, fails, 0);
    AllData(before);
  }

  /** Reads that are all non-token barcodes are all data. */
  lemma {:induction false} AllData(scans: seq<Scan>)
    requires forall j :: 0 <= j < |scans| ==> scans[j].Scanned? && Handler(scans[j].barcode).None?
    ensures DataScans(scans) == |scans|
    decreases |scans|
  {
    if scans != [] {
      AllData(scans[1..]);
    }
  }

  /** Without a token among the scans the current action stays what it was. */
  lemma {:induction false} ModePersists(scans: seq<Scan>, mode: Action, fails: iset<nat>, n: nat)
    requires forall j :: 0 <= j < |scans| ==> !(scans[j].Scanned? && Handler(scans[j].barcode).Some?)
    ensures ModeAfter(scans, mode) == mode
    ensures forall k :: 0 <= k < |Dispatch(scans, mode, fails, n).trace| ==>
      Dispatch(scans, mode, fails, n).trace[k].action == mode
    decreases |scans|
  {
    if scans != [] {
      ModePersists(scans[1..], mode, fails, n + 1);
      ModePersists(scans[1..], mode, fails, n);
    }
  }

  /** Calls without their outcome. */
  function Calls(trace: seq<Invocation>): (calls: seq<(Action, string)>)
    ensures |calls| == |trace|
  {
    if trace == [] then [] else [(trace[0].action, trace[0].barcode)] + Calls(trace[1..])
  }

  /**
   * Action failures are not fatal: which actions are invoked with which
   * barcodes, and which read ends the loop, do not depend on the outcomes.
   */
  lemma {:induction false} FailuresAreNotFatal(scans: seq<Scan>, mode: Action, fails: iset<nat>, others: iset<nat>, n: nat)
    ensures Calls(Dispatch(scans, mode, fails, n).trace) == Calls(Dispatch(scans, mode, others, n).trace)
    ensures Dispatch(scans, mode, fails, n).stoppedAt == Dispatch(scans, mode, others, n).stoppedAt
    decreases |scans|
  {
    if scans != [] && scans[0].Scanned? {
      match Handler(scans[0].barcode)
      case Some(a) => FailuresAreNotFatal(scans[1..], a, fails, others, n);
      case None => FailuresAreNotFatal(scans[1..], mode, fails, others, n + 1);
    }
  }

  /** Nothing after a failed read is ever dispatched. */
  lemma {:induction false} ReadErrorEndsLoop(before: seq<Scan>, after: seq<Scan>, other: seq<Scan>, mode: Action, fails: iset<nat>, n: nat)
    requires forall j :: 0 <= j < |before| ==> before[j].Scanned?
    ensures Dispatch(before + [ReadFailed] + after, mode, fails, n)
         == Dispatch(before + [ReadFailed] + other, mode, fails, n)
    ensures Dispatch(before + [ReadFailed] + after, mode, fails, n).stoppedAt == |before|
    decreases |before|
  {
    if before == [] {
      assert (before + [ReadFailed] + after)[0] == ReadFailed;
      assert (before + [ReadFailed] + other)[0] == ReadFailed;
    } else {
      assert (before + [ReadFailed] + after)[1..] == before[1..] + [ReadFailed] + after;
      assert (before + [ReadFailed] + other)[1..] == before[1..] + [ReadFailed] + other;
      match Handler(before[0].barcode)
      case Some(a) => ReadErrorEndsLoop(before[1..], after, other, a, fails, n);
      case None => ReadErrorEndsLoop(before[1..], after, other, mode, fails, n + 1);
    }
  }

  /** "consume" then "123": one consume of "123" and no add-or-create. */
  lemma ConsumeThenBarcode(fails: iset<nat>)
    ensures Dispatch([Scanned("consume"), Scanned("123")], AddOrCreate, fails, 0)
         == Run([Invocation(Consume, "123", 0 in fails)], 2)
  {
    var scans := [Scanned("consume"), Scanned("123")];
    assert scans[1..] == [Scanned("123")];
    assert scans[1..][1..] == [];
  }

  /** A failing action on "123" does not stop "456" being read and dispatched. */
  lemma FailedActionThenNextBarcode(fails: iset<nat>)
    requires 0 in fails
    ensures Dispatch([Scanned("123"), Scanned("456")], AddOrCreate, fails, 0).trace
         == [Invocation(AddOrCreate, "123", true), Invocation(AddOrCreate, "456", 1 in fails)]
  {
    var scans := [Scanned("123"), Scanned("456")];
    assert scans[1..] == [Scanned("456")];
    assert scans[1..][1..] == [];
  }
}

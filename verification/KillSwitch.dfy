/** Trading halts by scope, their audit log, and the pre-trade gate that reads them. Text is
    ASCII; prices and times are reals. */
module KillSwitch {
  import opened Options
  import Text

  datatype Scope = AllAop | AuthorisedPerson | Client | FinancialProduct | Market | Algorithm

  datatype Key = Key(scope: Scope, value: string)

  datatype Halt = Halt(scope: Scope, value: string, at: real, reason: string, actor: string)

  datatype Event = Triggered | Reset | ResetRefused

  /** What became of the messages already in the market. */
  datatype Cancellation = NotConfigured | Completed(count: int) | Failed(error: string) | NotAsked

  datatype Entry = Entry(event: Event, scope: Scope, value: string, at: real, reason: string, actor: string,
                         cancellation: Cancellation)

  type Halts = map<Key, Halt>

  // ---------------------------------------------------------------- scope values

  function Normalise(value: string): string { Text.Lower(Text.Strip(value)) }

  /** Trimming and folding again changes nothing, so logged scope values may be folded
      whether or not they were when written. */
  lemma {:induction false} NormaliseIsIdempotent(value: string)
    ensures Normalise(Normalise(value)) == Normalise(value)
    ensures Normalise(Text.Strip(value)) == Normalise(value)
  {
    var t := Text.Strip(value);
    var head, tail := Text.StripExactly(value);
    var n := Text.Lower(t);
    assert Text.Trimmed(n) by {
      assert n != "" ==> n[0] == Text.LowerChar(t[0]) && n[|n| - 1] == Text.LowerChar(t[|t| - 1]);
    }
    assert Text.Strip(n) == n && Text.Strip(t) == t;
    assert Text.Lower(n) == n;
  }

  function KeyOf(h: Halt): Key { Key(h.scope, Normalise(h.value)) }

  // ---------------------------------------------------------------- the log

  /** The halts one reads off the audit log, folding every scope value. */
  function Replay(log: seq<Entry>): Halts
  {
    if log == [] then map[]
    else
      var e, earlier := log[|log| - 1], Replay(log[..|log| - 1]);
      match e.event
      case Triggered => earlier[Key(e.scope, Normalise(e.value)) := Halt(e.scope, e.value, e.at, e.reason, e.actor)]
      case Reset => earlier - {Key(e.scope, Normalise(e.value))}
      case ResetRefused => earlier
  }

  function TriggerEntry(h: Halt, c: Cancellation): Entry
  {
    Entry(Triggered, h.scope, h.value, h.at, h.reason, h.actor, c)
  }

  predicate Attributed(reason: string, actor: string)
  {
    Text.Strip(reason) != "" && Text.Strip(actor) != ""
  }

  lemma {:induction false} ReplayAppend(log: seq<Entry>, e: Entry)
    ensures Replay(log + [e]) == match e.event
      case Triggered => Replay(log)[Key(e.scope, Normalise(e.value)) := Halt(e.scope, e.value, e.at, e.reason, e.actor)]
      case Reset => Replay(log) - {Key(e.scope, Normalise(e.value))}
      case ResetRefused => Replay(log)
  {
    hide Normalise;
    assert (log + [e])[..|log|] == log;
  }

  // ---------------------------------------------------------------- interleavings

  /** A trigger takes the lock twice: to put its halt in force, and, once the cancellation
      hand-off is over, to log it. A release takes it once. `call` names the trigger. */
  datatype Step =
    | Apply(call: nat, halt: Halt)
    | Log(call: nat, cancellation: Cancellation)
    | Release(scope: Scope, value: string, at: real, reason: string, actor: string)

  /** `pending` holds the triggers in force but not yet logged. */
  datatype State = State(halts: Halts, log: seq<Entry>, pending: map<nat, Halt>)

  /** A release names its halt by the folded value, and by none for all trading. */
  function ReleaseKey(scope: Scope, value: string): Key
  {
    Key(scope, if scope.AllAop? then "" else Normalise(value))
  }

  function ReleaseEntry(event: Event, step: Step): Entry
    requires step.Release?
  {
    var key := ReleaseKey(step.scope, step.value);
    Entry(event, key.scope, key.value, step.at, step.reason, step.actor, NotAsked)
  }

  function Next(s: State, step: Step): State
  {
    match step
    case Apply(call, halt) =>
      if call in s.pending then s
      else s.(halts := s.halts[KeyOf(halt) := halt], pending := s.pending[call := halt])
    case Log(call, c) =>
      if call !in s.pending then s
      else s.(log := s.log + [TriggerEntry(s.pending[call], c)], pending := s.pending - {call})
    case Release(scope, value, _, reason, actor) =>
      if !Attributed(reason, actor) then s.(log := s.log + [ReleaseEntry(ResetRefused, step)])
      else if ReleaseKey(scope, value) !in s.halts then s
      else s.(halts := s.halts - {ReleaseKey(scope, value)}, log := s.log + [ReleaseEntry(Reset, step)])
  }

  function StateAt(h: seq<Step>, i: nat): State
    requires i <= |h|
  {
    if i == 0 then State(map[], [], map[]) else Next(StateAt(h, i - 1), h[i - 1])
  }

  /** Step i puts a halt with this key in force. */
  predicate Applies(h: seq<Step>, k: Key, i: nat)
    requires i < |h|
  {
    h[i].Apply? && h[i].call !in StateAt(h, i).pending && KeyOf(h[i].halt) == k
  }

  /** Step i releases a halt with this key. */
  predicate Releases(h: seq<Step>, k: Key, i: nat)
    requires i < |h|
  {
    && h[i].Release? && Attributed(h[i].reason, h[i].actor)
    && ReleaseKey(h[i].scope, h[i].value) == k && k in StateAt(h, i).halts
  }

  /** Step i logs a trigger with this key. */
  predicate Logs(h: seq<Step>, k: Key, i: nat)
    requires i < |h|
  {
    h[i].Log? && h[i].call in StateAt(h, i).pending && KeyOf(StateAt(h, i).pending[h[i].call]) == k
  }

  function ReplayAt(h: seq<Step>, i: nat): Halts
    requires i <= |h|
  {
    Replay(StateAt(h, i).log)
  }

  lemma {:induction false} HaltsAfter(h: seq<Step>, k: Key, i: nat, next: nat)
    requires i < |h| && next == i + 1
    ensures k in StateAt(h, next).halts <==> Applies(h, k, i) || (k in StateAt(h, i).halts && !Releases(h, k, i))
  {
    hide Normalise, Attributed, ReleaseEntry, TriggerEntry;
  }

  lemma {:induction false} NormalisedKeys(value: string)
    ensures Normalise("") == "" && Normalise(Normalise(value)) == Normalise(value)
  {
    NormaliseIsIdempotent(value);
  }

  lemma {:induction false} ReplayAfter(h: seq<Step>, k: Key, i: nat, next: nat)
    requires i < |h| && next == i + 1
    ensures k in ReplayAt(h, next) <==> Logs(h, k, i) || (k in ReplayAt(h, i) && !Releases(h, k, i))
  {
    hide Normalise, Attributed, Replay, StateAt;
    var s := StateAt(h, i);
    StateSteps(h, i, next);
    match h[i] {
      case Apply(_, _) =>
      case Log(call, c) =>
        if call in s.pending {
          ReplayAppend(s.log, TriggerEntry(s.pending[call], c));
        }
      case Release(_, value, _, _, _) =>
        NormalisedKeys(value);
        ReplayAppend(s.log, ReleaseEntry(Reset, h[i]));
        ReplayAppend(s.log, ReleaseEntry(ResetRefused, h[i]));
    }
  }

  lemma StateSteps(h: seq<Step>, i: nat, next: nat)
    requires i < |h| && next == i + 1
    ensures StateAt(h, next) == Next(StateAt(h, i), h[i])
  {
  }

  ghost predicate IsPending(s: State, k: Key)
  {
    exists c :: c in s.pending && KeyOf(s.pending[c]) == k
  }

  /** In every interleaving an active halt is on the log, or its trigger is still to be
      logged: the log never forgets a halt in force. */
  lemma {:induction false} ActiveIsOnRecord(h: seq<Step>, k: Key, i: nat)
    requires i <= |h| && k in StateAt(h, i).halts
    ensures k in ReplayAt(h, i) || IsPending(StateAt(h, i), k)
  {
    hide Normalise, Attributed, Replay, ReplayAt, ReleaseEntry, TriggerEntry;
    HaltsAfter(h, k, i - 1, i);
    ReplayAfter(h, k, i - 1, i);
    var s, t := StateAt(h, i - 1), StateAt(h, i);
    if Applies(h, k, i - 1) {
      assert h[i - 1].call in t.pending && KeyOf(t.pending[h[i - 1].call]) == k;
    } else {
      ActiveIsOnRecord(h, k, i - 1);
      if k !in ReplayAt(h, i - 1) {
        var c :| c in s.pending && KeyOf(s.pending[c]) == k;
        assert Logs(h, k, i - 1) || (c in t.pending && t.pending[c] == s.pending[c]);
      }
    }
  }

  ghost predicate NoneApplied(h: seq<Step>, k: Key, after: nat, upto: nat)
    requires upto <= |h|
  {
    forall i :: after < i < upto ==> !Applies(h, k, i)
  }

  /** A trigger still to be logged was put in force by an earlier step. */
  lemma {:induction false} PendingWasApplied(h: seq<Step>, i: nat, c: nat) returns (a: nat)
    requires i <= |h| && c in StateAt(h, i).pending
    ensures a < i && h[a].Apply? && h[a].call == c && Applies(h, KeyOf(StateAt(h, i).pending[c]), a)
    ensures h[a].halt == StateAt(h, i).pending[c]
    ensures forall j :: a < j <= i ==> c in StateAt(h, j).pending
  {
    hide Normalise, Attributed, ReleaseEntry, TriggerEntry;
    if c in StateAt(h, i - 1).pending {
      a := PendingWasApplied(h, i - 1, c);
    } else {
      a := i - 1;
    }
  }

  /** A halt once in force and now gone was released, and not put in force again. */
  lemma {:induction false} GoneWasReleased(h: seq<Step>, k: Key, a: nat, i: nat) returns (r: nat)
    requires a < i <= |h| && Applies(h, k, a) && k !in StateAt(h, i).halts
    ensures a < r < i && Releases(h, k, r) && NoneApplied(h, k, r, i)
  {
    hide Normalise, Attributed, StateAt;
    HaltsAfter(h, k, i - 1, i);
    if k in StateAt(h, i - 1).halts {
      r := i - 1;
    } else {
      r := GoneWasReleased(h, k, a, i - 1);
    }
  }

  lemma {:induction false} ReleasedStaysGone(h: seq<Step>, k: Key, r: nat, i: nat)
    requires r < i <= |h| && Releases(h, k, r) && NoneApplied(h, k, r, i)
    ensures k !in StateAt(h, i).halts
  {
    hide Normalise, Attributed, StateAt, ReleaseKey;
    HaltsAfter(h, k, i - 1, i);
    if r < i - 1 {
      ReleasedStaysGone(h, k, r, i - 1);
    }
  }

  ghost predicate StrandedBy(h: seq<Step>, k: Key, r: nat, l: nat, i: nat)
    requires i <= |h|
  {
    r < l < i && Releases(h, k, r) && Logs(h, k, l) && NoneApplied(h, k, r, i)
  }

  /** A trigger of k is logged after a release of k, and nothing puts k in force again. */
  ghost predicate Stranded(h: seq<Step>, k: Key, i: nat)
    requires i <= |h|
  {
    exists r, l :: StrandedBy(h, k, r, l, i)
  }

  /** The log shows a halt that is not in force exactly when its trigger was logged after
      its last release. */
  lemma {:induction false} LogOverstatesExactly(h: seq<Step>, k: Key, i: nat)
    requires i <= |h|
    ensures k in ReplayAt(h, i) && k !in StateAt(h, i).halts <==> Stranded(h, k, i)
  {
    hide Applies, Releases, Logs, StateAt, ReplayAt;
    if i == 0 {
      assert k !in ReplayAt(h, 0) by { EmptyReplay(h); }
    } else {
      LogOverstatesExactly(h, k, i - 1);
      HaltsAfter(h, k, i - 1, i);
      ReplayAfter(h, k, i - 1, i);
      if k in ReplayAt(h, i) && k !in StateAt(h, i).halts {
        OverstatedIsStranded(h, k, i);
      }
      if Stranded(h, k, i) {
        StrandedIsOverstated(h, k, i);
      }
    }
  }

  lemma EmptyReplay(h: seq<Step>)
    ensures ReplayAt(h, 0) == map[] && StateAt(h, 0).halts == map[]
  {
  }

  lemma {:induction false} LoggedWasApplied(h: seq<Step>, k: Key, l: nat) returns (a: nat)
    requires l < |h| && Logs(h, k, l)
    ensures a < l && h[a].Apply? && h[a].call == h[l].call && Applies(h, k, a)
    ensures h[a].halt == StateAt(h, l).pending[h[l].call]
    ensures forall j :: a < j <= l ==> h[l].call in StateAt(h, j).pending
  {
    hide StateAt, Normalise;
    a := PendingWasApplied(h, l, h[l].call);
  }

  lemma {:induction false} OverstatedIsStranded(h: seq<Step>, k: Key, i: nat)
    requires 0 < i <= |h| && k in ReplayAt(h, i) && k !in StateAt(h, i).halts
    requires k in ReplayAt(h, i - 1) && k !in StateAt(h, i - 1).halts ==> Stranded(h, k, i - 1)
    ensures Stranded(h, k, i)
  {
    hide Applies, Releases, Logs, StateAt, ReplayAt;
    HaltsAfter(h, k, i - 1, i);
    ReplayAfter(h, k, i - 1, i);
    if Logs(h, k, i - 1) {
      var a := LoggedWasApplied(h, k, i - 1);
      var r := GoneWasReleased(h, k, a, i);
      LogIsNoRelease(h, k, i - 1);
      assert StrandedBy(h, k, r, i - 1, i);
    } else {
      var r: nat, l: nat :| StrandedBy(h, k, r, l, i - 1);
      assert StrandedBy(h, k, r, l, i);
    }
  }

  lemma LogIsNoRelease(h: seq<Step>, k: Key, i: nat)
    requires i < |h| && Logs(h, k, i)
    ensures !Releases(h, k, i)
  {
  }

  lemma {:induction false} StrandedIsOverstated(h: seq<Step>, k: Key, i: nat)
    requires 0 < i <= |h| && Stranded(h, k, i)
    requires Stranded(h, k, i - 1) ==> k in ReplayAt(h, i - 1) && k !in StateAt(h, i - 1).halts
    ensures k in ReplayAt(h, i) && k !in StateAt(h, i).halts
  {
    hide Applies, Logs, StateAt, ReplayAt, Attributed, ReleaseKey;
    var r: nat, l: nat :| StrandedBy(h, k, r, l, i);
    ReleasedStaysGone(h, k, r, i);
    ReplayAfter(h, k, i - 1, i);
    ReleasedStaysGone(h, k, r, i - 1);
    if l < i - 1 {
      assert StrandedBy(h, k, r, l, i - 1);
    }
  }

  /** The stranded trigger straddles the release: it was put in force before and logged
      after, by the same call. */
  lemma {:induction false} StrandedStraddles(h: seq<Step>, k: Key, i: nat) returns (a: nat, r: nat, l: nat)
    requires i <= |h| && Stranded(h, k, i)
    ensures a < r < l < i && Applies(h, k, a) && Releases(h, k, r) && Logs(h, k, l)
    ensures h[a].Apply? && h[l].Log? && h[a].call == h[l].call
    ensures forall j :: a < j <= l ==> h[l].call in StateAt(h, j).pending
  {
    hide StateAt, Attributed, ReleaseKey, Normalise;
    r, l :| StrandedBy(h, k, r, l, i);
    a := LoggedWasApplied(h, k, l);
    assert a != r;
  }

  // ---------------------------------------------------------------- which record stands

  /** Step a puts k in force, and no later one before i does. */
  ghost predicate LastApply(h: seq<Step>, k: Key, a: nat, i: nat)
    requires i <= |h|
  {
    a < i && Applies(h, k, a) && NoneApplied(h, k, a, i)
  }

  /** Step l logs a trigger of k, and no later one before i does. */
  ghost predicate LastLog(h: seq<Step>, k: Key, l: nat, i: nat)
    requires i <= |h|
  {
    l < i && Logs(h, k, l) && forall j :: l < j < i ==> !Logs(h, k, j)
  }

  function Logged(h: seq<Step>, l: nat): Halt
    requires l < |h| && h[l].Log? && h[l].call in StateAt(h, l).pending
  {
    StateAt(h, l).pending[h[l].call]
  }

  lemma {:induction false} HaltRecordAfter(h: seq<Step>, k: Key, i: nat, next: nat)
    requires i < |h| && next == i + 1 && k in StateAt(h, next).halts
    ensures Applies(h, k, i) ==> StateAt(h, next).halts[k] == h[i].halt
    ensures !Applies(h, k, i) ==>
      k in StateAt(h, i).halts && StateAt(h, next).halts[k] == StateAt(h, i).halts[k]
  {
    hide Normalise, Attributed, ReleaseEntry, TriggerEntry;
  }

  lemma {:induction false} LogRecordAfter(h: seq<Step>, k: Key, i: nat, next: nat)
    requires i < |h| && next == i + 1 && k in ReplayAt(h, next)
    ensures Logs(h, k, i) ==> ReplayAt(h, next)[k] == Logged(h, i)
    ensures !Logs(h, k, i) ==> k in ReplayAt(h, i) && ReplayAt(h, next)[k] == ReplayAt(h, i)[k]
  {
    hide Normalise, Attributed, Replay, StateAt;
    var s := StateAt(h, i);
    StateSteps(h, i, next);
    match h[i] {
      case Apply(_, _) =>
      case Log(call, c) =>
        if call in s.pending {
          ReplayAppend(s.log, TriggerEntry(s.pending[call], c));
        }
      case Release(_, value, _, _, _) =>
        NormalisedKeys(value);
        ReplayAppend(s.log, ReleaseEntry(Reset, h[i]));
        ReplayAppend(s.log, ReleaseEntry(ResetRefused, h[i]));
    }
  }

  /** The halt in force is the one applied last. */
  lemma {:induction false} ActiveIsLastApplied(h: seq<Step>, k: Key, i: nat) returns (a: nat)
    requires i <= |h| && k in StateAt(h, i).halts
    ensures LastApply(h, k, a, i) && h[a].Apply? && StateAt(h, i).halts[k] == h[a].halt
  {
    hide Applies, StateAt;
    if i == 0 {
      EmptyReplay(h);
    } else {
      HaltRecordAfter(h, k, i - 1, i);
      if Applies(h, k, i - 1) {
        AppliesIsApply(h, k, i - 1);
        a := i - 1;
      } else {
        a := ActiveIsLastApplied(h, k, i - 1);
      }
    }
  }

  lemma AppliesIsApply(h: seq<Step>, k: Key, i: nat)
    requires i < |h| && Applies(h, k, i)
    ensures h[i].Apply?
  {
  }

  /** The halt on the log is the one logged last. */
  lemma {:induction false} RecordIsLastLogged(h: seq<Step>, k: Key, i: nat) returns (l: nat)
    requires i <= |h| && k in ReplayAt(h, i)
    ensures LastLog(h, k, l, i) && ReplayAt(h, i)[k] == Logged(h, l)
  {
    hide StateAt, ReplayAt, Normalise;
    if i == 0 {
      EmptyReplay(h);
    } else {
      LogRecordAfter(h, k, i - 1, i);
      if Logs(h, k, i - 1) {
        l := i - 1;
      } else {
        l := RecordIsLastLogged(h, k, i - 1);
      }
    }
  }

  /** The trigger of k in force is not the one logged last, and they differ. */
  ghost predicate Garbled(h: seq<Step>, k: Key, i: nat)
    requires i <= |h|
  {
    && k in StateAt(h, i).halts
    && exists a: nat, l: nat :: LastApply(h, k, a, i) && LastLog(h, k, l, i) && h[a].halt != Logged(h, l)
  }

  lemma {:induction false} GarbledExactly(h: seq<Step>, k: Key, i: nat)
    requires i <= |h| && k in StateAt(h, i).halts && k in ReplayAt(h, i)
    ensures Garbled(h, k, i) <==> StateAt(h, i).halts[k] != ReplayAt(h, i)[k]
  {
    hide Applies, Logs, StateAt, ReplayAt, Logged;
    var a := ActiveIsLastApplied(h, k, i);
    var l := RecordIsLastLogged(h, k, i);
  }

  /** From step a to j a trigger stays pending with its halt. */
  ghost predicate PendingSince(h: seq<Step>, a: nat, j: nat)
    requires a < j <= |h| && h[a].Apply?
  {
    forall x :: a < x <= j ==> h[a].call in StateAt(h, x).pending && StateAt(h, x).pending[h[a].call] == h[a].halt
  }

  /** A trigger put in force and no longer pending has been logged. */
  lemma {:induction false} AppliedIsLogged(h: seq<Step>, k: Key, a: nat, j: nat, i: nat) returns (l: nat)
    requires a < j <= i <= |h| && h[a].Apply? && KeyOf(h[a].halt) == k && PendingSince(h, a, j)
    requires h[a].call !in StateAt(h, i).pending
    ensures a < l < i && Logs(h, k, l) && h[l].call == h[a].call
    decreases i - j
  {
    hide Normalise, Attributed, ReleaseEntry, TriggerEntry;
    StateSteps(h, j, j + 1);
    if h[a].call in StateAt(h, j + 1).pending {
      l := AppliedIsLogged(h, k, a, j + 1, i);
    } else {
      l := j;
    }
  }

  /** A garbled record comes of two triggers of one key that overlap and are logged in the
      other order. */
  lemma {:induction false} GarbledOverlaps(h: seq<Step>, k: Key, i: nat)
    returns (first: nat, second: nat, secondLog: nat, firstLog: nat)
    requires i <= |h| && StateAt(h, i).pending == map[] && Garbled(h, k, i)
    ensures first < second < secondLog < firstLog < i
    ensures Applies(h, k, first) && Applies(h, k, second) && Logs(h, k, secondLog) && Logs(h, k, firstLog)
    ensures h[first].Apply? && h[firstLog].Log? && h[first].call == h[firstLog].call
    ensures h[second].Apply? && h[secondLog].Log? && h[second].call == h[secondLog].call
  {
    hide StateAt, Normalise;
    var a: nat, l: nat :| LastApply(h, k, a, i) && LastLog(h, k, l, i) && h[a].halt != Logged(h, l);
    second, firstLog := a, l;
    first := LoggedWasApplied(h, k, firstLog);
    assert first < second;
    PendingStarts(h, k, second);
    secondLog := AppliedIsLogged(h, k, second, second + 1, i);
    assert secondLog <= firstLog;
    assert second < firstLog;
    assert h[second].call != h[first].call;
  }

  lemma PendingStarts(h: seq<Step>, k: Key, a: nat)
    requires a < |h| && Applies(h, k, a)
    ensures h[a].Apply? && KeyOf(h[a].halt) == k && PendingSince(h, a, a + 1)
  {
  }

  /** With no trigger under way, in any interleaving: the log replays to every halt in force,
      to no other key unless one is stranded, and to those very records unless one is
      garbled. */
  lemma {:induction false} ReplayIsExact(h: seq<Step>, i: nat)
    requires i <= |h| && StateAt(h, i).pending == map[]
    ensures StateAt(h, i).halts.Keys <= ReplayAt(h, i).Keys
    ensures ReplayAt(h, i).Keys == StateAt(h, i).halts.Keys <==> forall k :: !Stranded(h, k, i)
    ensures ReplayAt(h, i) == StateAt(h, i).halts <==> forall k :: !Stranded(h, k, i) && !Garbled(h, k, i)
  {
    hide StateAt, ReplayAt, Stranded, Garbled;
    var halts, replayed := StateAt(h, i).halts, ReplayAt(h, i);
    forall k | k in halts ensures k in replayed {
      ActiveIsOnRecord(h, k, i);
    }
    forall k ensures Stranded(h, k, i) <==> k in replayed && k !in halts {
      LogOverstatesExactly(h, k, i);
    }
    forall k ensures Garbled(h, k, i) <==> k in halts && halts[k] != replayed[k] {
      GarbledIsActive(h, k, i);
      if k in halts {
        GarbledExactly(h, k, i);
      }
    }
  }

  lemma GarbledIsActive(h: seq<Step>, k: Key, i: nat)
    requires i <= |h|
    ensures Garbled(h, k, i) ==> k in StateAt(h, i).halts
  {
  }

  /** It happens: released between its two sections, a halt of all trading stays on the
      log. */
  lemma {:induction false} LogCanOverstate()
    ensures var h := [Apply(0, Halt(AllAop, "", 0.0, "r", "a")), Release(AllAop, "", 1.0, "r", "a"),
                      Log(0, NotConfigured)];
      && Stranded(h, Key(AllAop, ""), 3)
      && StateAt(h, 3).pending == map[] && StateAt(h, 3).halts == map[] && Key(AllAop, "") in ReplayAt(h, 3)
  {
    var halt, k := Halt(AllAop, "", 0.0, "r", "a"), Key(AllAop, "");
    var h := [Apply(0, halt), Release(AllAop, "", 1.0, "r", "a"), Log(0, NotConfigured)];
    NormalisedKeys("");
    assert StateAt(h, 0) == State(map[], [], map[]);
    assert StateAt(h, 1) == State(map[k := halt], [], map[0 := halt]);
    assert Attributed("r", "a");
    assert StateAt(h, 2).halts == map[] && StateAt(h, 2).pending == map[0 := halt];
    assert StateAt(h, 3).halts == map[] && StateAt(h, 3).pending == map[];
    assert StrandedBy(h, k, 1, 2, 3);
    LogOverstatesExactly(h, k, 3);
  }

  /** Nor is garbling impossible: of two triggers the one applied first is logged last. */
  lemma {:induction false} LogCanGarble()
    ensures var h := [Apply(0, Halt(AllAop, "", 0.0, "r", "a")), Apply(1, Halt(AllAop, "", 1.0, "r", "a")),
                      Log(1, NotConfigured), Log(0, NotConfigured)];
      && Garbled(h, Key(AllAop, ""), 4) && StateAt(h, 4).pending == map[]
  {
    var one, two, k := Halt(AllAop, "", 0.0, "r", "a"), Halt(AllAop, "", 1.0, "r", "a"), Key(AllAop, "");
    var h := [Apply(0, one), Apply(1, two), Log(1, NotConfigured), Log(0, NotConfigured)];
    NormalisedKeys("");
    assert StateAt(h, 0) == State(map[], [], map[]);
    assert StateAt(h, 1) == State(map[k := one], [], map[0 := one]);
    assert StateAt(h, 2) == State(map[k := two], [], map[0 := one, 1 := two]);
    assert StateAt(h, 3).halts == map[k := two] && StateAt(h, 3).pending == map[0 := one];
    assert StateAt(h, 4).halts == map[k := two] && StateAt(h, 4).pending == map[];
    assert LastApply(h, k, 1, 4) && LastLog(h, k, 3, 4) && Logged(h, 3) == one;
  }

  // ---------------------------------------------------------------- orders

  /** A number as it arrives: finite, or NaN, an infinity or no number at all. */
  datatype Number = Finite(value: real) | NotFinite

  datatype Order = Order(
    symbol: string,
    client: string,
    authorisedPerson: string,
    algorithm: string,
    market: string,
    price: Number,
    quantity: Number,
    reference: Number)

  function Identity(o: Order, scope: Scope): string
  {
    match scope
    case AllAop => ""
    case AuthorisedPerson => o.authorisedPerson
    case Client => o.client
    case FinancialProduct => o.symbol
    case Market => o.market
    case Algorithm => o.algorithm
  }

  /** A halt of all trading blocks every order; a scoped one, every order carrying that
      identity, whatever its case and padding. */
  predicate Blocks(k: Key, o: Order)
  {
    if k.scope.AllAop? then k.value == ""
    else k.value != "" && k.value == Normalise(Identity(o, k.scope))
  }

  /** A name on an order is the one the halt gives, up to padding and letter case. */
  predicate Names(value: string, name: string)
  {
    !Text.Blank(name) && Text.SameButCase(Text.Strip(value), Text.Strip(name))
  }

  /** The halt stops this order: all trading, or the field its scope speaks of. */
  predicate Stops(h: Halt, o: Order)
  {
    match h.scope
    case AllAop => Text.Blank(h.value)
    case AuthorisedPerson => Names(h.value, o.authorisedPerson)
    case Client => Names(h.value, o.client)
    case FinancialProduct => Names(h.value, o.symbol)
    case Market => Names(h.value, o.market)
    case Algorithm => Names(h.value, o.algorithm)
  }

  /** Where several halts stop an order, the one with the least rank is named. */
  function Rank(scope: Scope): nat
  {
    match scope
    case AllAop => 0
    case AuthorisedPerson => 1
    case Client => 2
    case FinancialProduct => 3
    case Market => 4
    case Algorithm => 5
  }

  lemma {:induction false} NamesByKey(value: string, name: string)
    ensures Names(value, name) <==> Normalise(name) != "" && Normalise(value) == Normalise(name)
  {
    Text.StripBlank(name);
    Text.LowerIgnoresCase(Text.Strip(value), Text.Strip(name));
    assert |Normalise(name)| == |Text.Strip(name)|;
  }

  /** A key blocks an order exactly when its halt stops it, field by field. */
  lemma {:induction false} BlocksExactly(h: Halt, o: Order)
    ensures Blocks(KeyOf(h), o) <==> Stops(h, o)
  {
    hide Normalise, Names;
    match h.scope
    case AllAop =>
      Text.StripBlank(h.value);
      NormalisedBlank(h.value);
    case _ =>
      NamesByKey(h.value, Identity(o, h.scope));
  }

  lemma NormalisedBlank(value: string)
    ensures Normalise(value) == "" <==> Text.Strip(value) == ""
  {
    assert |Normalise(value)| == |Text.Strip(value)|;
  }

  class KillSwitchManager {
    var halts: Halts
    var auditLog: seq<Entry>

    /** What is in force is what the log says is in force, record for record. */
    ghost predicate Valid()
      reads this
    {
      Replay(auditLog) == halts && forall k :: k in halts ==> KeyOf(halts[k]) == k
    }

    ghost function Abstract(): State
      reads this
    {
      State(halts, auditLog, map[])
    }

    constructor ()
      ensures Valid() && halts == map[] && auditLog == []
    {
      halts, auditLog := map[], [];
    }

    method TriggerKillSwitch(reason: string, actor: string, at: real, outcome: Cancellation)
      requires Valid()
      modifies this
      ensures Valid()
      ensures halts == old(halts)[Key(AllAop, "") := Halt(AllAop, "", at, reason, actor)]
      ensures auditLog == old(auditLog) + [TriggerEntry(Halt(AllAop, "", at, reason, actor), outcome)]
    {
      Trigger(Halt(AllAop, "", at, reason, actor), outcome);
      NormalisedKeys("");
    }

    /** Refused only when a scoped halt names nothing. */
    method TriggerScopedHalt(
        scope: Scope, value: string, reason: string, actor: string, at: real, outcome: Cancellation)
      returns (ok: bool)
      requires Valid()
      modifies this
      ensures Valid()
      ensures ok <==> scope.AllAop? || !Text.Blank(value)
      ensures !ok ==> halts == old(halts) && auditLog == old(auditLog)
      ensures ok ==>
        var h := Halt(scope, if scope.AllAop? then "" else Text.Strip(value), at, reason, actor);
        && halts == old(halts)[ReleaseKey(scope, value) := h]
        && auditLog == old(auditLog) + [TriggerEntry(h, outcome)]
    {
      hide Normalise, Replay;
      Text.StripBlank(value);
      NormaliseIsIdempotent(value);
      NormalisedKeys("");
      if scope.AllAop? {
        Trigger(Halt(AllAop, "", at, reason, actor), outcome);
        return true;
      }
      if Text.Strip(value) == "" {
        return false;
      }
      Trigger(Halt(scope, Text.Strip(value), at, reason, actor), outcome);
      return true;
    }

    /** Both locked sections, with nothing between them. */
    method Trigger(h: Halt, outcome: Cancellation)
      requires Valid()
      modifies this
      ensures Valid()
      ensures Abstract() == Next(Next(old(Abstract()), Apply(0, h)), Log(0, outcome))
      ensures halts == old(halts)[KeyOf(h) := h] && auditLog == old(auditLog) + [TriggerEntry(h, outcome)]
    {
      hide Normalise, Replay;
      halts := halts[KeyOf(h) := h];
      ReplayAppend(auditLog, TriggerEntry(h, outcome));
      auditLog := auditLog + [TriggerEntry(h, outcome)];
      assert map[0 := h] - {0} == map[];
    }

    method ReleaseScopedHalt(scope: Scope, value: string, reason: string, actor: string, at: real)
      returns (released: bool)
      requires Valid()
      modifies this
      ensures Valid()
      ensures Abstract() == Next(old(Abstract()), Release(scope, value, at, reason, actor))
      ensures released <==> ReleaseKey(scope, value) in old(halts) && !Text.Blank(reason) && !Text.Blank(actor)
      ensures halts == if released then old(halts) - {ReleaseKey(scope, value)} else old(halts)
      ensures var record := (event: Event) =>
          Entry(event, scope, ReleaseKey(scope, value).value, at, reason, actor, NotAsked);
        auditLog == old(auditLog)
          + if released then [record(Reset)]
            else if Text.Blank(reason) || Text.Blank(actor) then [record(ResetRefused)]
            else []
    {
      hide Normalise, Replay;
      Text.StripBlank(reason);
      Text.StripBlank(actor);
      NormalisedKeys(value);
      var key := ReleaseKey(scope, value);
      if !Attributed(reason, actor) {
        var refusal := Entry(ResetRefused, key.scope, key.value, at, reason, actor, NotAsked);
        ReplayAppend(auditLog, refusal);
        auditLog := auditLog + [refusal];
        return false;
      }
      if key !in halts {
        return false;
      }
      var entry := Entry(Reset, key.scope, key.value, at, reason, actor, NotAsked);
      ReplayAppend(auditLog, entry);
      halts := halts - {key};
      auditLog := auditLog + [entry];
      return true;
    }

    /** The halt that stops an order, if any does, the widest scope first. */
    method HaltBlocking(o: Order) returns (r: Option<Halt>)
      requires Valid()
      ensures r.None? <==> forall k :: k in halts ==> !Stops(halts[k], o)
      ensures r.Some? ==>
        && KeyOf(r.value) in halts && halts[KeyOf(r.value)] == r.value && Stops(r.value, o)
        && forall k :: k in halts && Stops(halts[k], o) ==> Rank(r.value.scope) <= Rank(halts[k].scope)
    {
      hide Normalise, Replay, Stops;
      BlockedByKey(o);
      if Key(AllAop, "") in halts {
        assert Blocks(Key(AllAop, ""), o);
        return Some(halts[Key(AllAop, "")]);
      }
      var scopes := [AuthorisedPerson, Client, FinancialProduct, Market, Algorithm];
      for i := 0 to |scopes|
        invariant forall k :: k in halts && Rank(k.scope) <= i ==> !Blocks(k, o)
      {
        var key := Key(scopes[i], Normalise(Identity(o, scopes[i])));
        if key.value != "" && key in halts {
          assert Blocks(key, o);
          return Some(halts[key]);
        }
      }
      return None;
    }

    lemma {:induction false} BlockedByKey(o: Order)
      requires Valid()
      ensures forall k :: k in halts ==> halts[k].scope == k.scope && (Blocks(k, o) <==> Stops(halts[k], o))
    {
      hide Normalise, Replay, Stops, Blocks;
      forall k | k in halts ensures halts[k].scope == k.scope && (Blocks(k, o) <==> Stops(halts[k], o)) {
        BlocksExactly(halts[k], o);
      }
    }
  }

  // ---------------------------------------------------------------- the gate

  datatype Limits = Limits(maxValue: real, maxVolume: int, maxDeviation: real)
  {
    predicate Valid() { maxValue > 0.0 && maxVolume > 0 && 0.0 < maxDeviation <= 1.0 }
  }

  datatype Change = Change(at: real, authorisedBy: string, reason: string, previous: Limits, replacement: Limits)

  datatype Verdict =
    | Approved | KillSwitchActive | ScopeHalted | NonFiniteInput | InvalidFields | ZeroReference
    | VolumeLimit | ValueLimit | PriceDeviation

  function Abs(x: real): real { if x < 0.0 then -x else x }

  /** The verdict on an order nothing stops: the first check it fails, in this order. The price
      may lie off its reference by the given fraction of it, either way. */
  predicate Judges(l: Limits, o: Order, v: Verdict)
  {
    if o.price.NotFinite? || o.quantity.NotFinite? || o.reference.NotFinite? then v == NonFiniteInput
    else
      var price, quantity, reference := o.price.value, o.quantity.value, o.reference.value;
      if !(quantity > 0.0 && price > 0.0) then v == InvalidFields
      else if !(reference > 0.0) then v == ZeroReference
      else if quantity > l.maxVolume as real then v == VolumeLimit
      else if price * quantity > l.maxValue then v == ValueLimit
      else
        var leeway := l.maxDeviation * reference;
        if reference - leeway <= price <= reference + leeway then v == Approved else v == PriceDeviation
  }

  /** Every change starts from the limits the one before it left. */
  predicate ChainsFrom(first: Limits, changes: seq<Change>, last: Limits)
  {
    if changes == [] then first == last
    else
      var c := changes[|changes| - 1];
      c.replacement == last && ChainsFrom(first, changes[..|changes| - 1], c.previous)
  }

  class PreTradeFilter {
    const killSwitch: KillSwitchManager
    var limits: Limits
    var parameterLog: seq<Change>
    ghost const initial: Limits

    ghost predicate Valid()
      reads this, killSwitch
    {
      killSwitch.Valid() && limits.Valid() && ChainsFrom(initial, parameterLog, limits)
    }

    constructor (limits: Limits, killSwitch: KillSwitchManager)
      requires limits.Valid() && killSwitch.Valid()
      ensures Valid() && this.limits == limits && this.killSwitch == killSwitch && initial == limits
    {
      this.limits, this.killSwitch, initial := limits, killSwitch, limits;
      parameterLog := [];
    }

    /** The log always leads from the first limits to those in force. */
    method ReplaceConfig(next: Limits, authorisedBy: string, reason: string, at: real) returns (ok: bool)
      requires Valid() && next.Valid()
      modifies this
      ensures Valid()
      ensures ok <==> !Text.Blank(authorisedBy) && !Text.Blank(reason)
      ensures limits == if ok then next else old(limits)
      ensures parameterLog
        == old(parameterLog) + if ok then [Change(at, authorisedBy, reason, old(limits), next)] else []
    {
      Text.StripBlank(authorisedBy);
      Text.StripBlank(reason);
      if !Attributed(authorisedBy, reason) {
        return false;
      }
      var change := Change(at, authorisedBy, reason, limits, next);
      assert (parameterLog + [change])[..|parameterLog|] == parameterLog;
      limits := next;
      parameterLog := parameterLog + [change];
      return true;
    }

    /** An order is rejected as halted exactly when a halt the audit log shows in force stops it,
        which outranks every other reason; any other order is judged by the limits alone. */
    method RunChecks(o: Order) returns (v: Verdict)
      requires Valid()
      ensures var halts := Replay(killSwitch.auditLog);
        match v
        case KillSwitchActive => exists k :: k in halts && Stops(halts[k], o) && halts[k].scope.AllAop?
        case ScopeHalted =>
          && (exists k :: k in halts && Stops(halts[k], o))
          && (forall k :: k in halts && Stops(halts[k], o) ==> !halts[k].scope.AllAop?)
        case _ => (forall k :: k in halts ==> !Stops(halts[k], o)) && Judges(limits, o, v)
    {
      hide Normalise, Replay, Stops;
      var halt := killSwitch.HaltBlocking(o);
      if halt.Some? {
        assert Replay(killSwitch.auditLog)[KeyOf(halt.value)] == halt.value;
        return if halt.value.scope.AllAop? then KillSwitchActive else ScopeHalted;
      }
      if o.price.NotFinite? || o.quantity.NotFinite? || o.reference.NotFinite? {
        return NonFiniteInput;
      }
      var price, quantity, reference := o.price.value, o.quantity.value, o.reference.value;
      if quantity <= 0.0 || price <= 0.0 {
        return InvalidFields;
      }
      if reference <= 0.0 {
        return ZeroReference;
      }
      if quantity > limits.maxVolume as real {
        return VolumeLimit;
      }
      if price * quantity > limits.maxValue {
        return ValueLimit;
      }
      if Abs(price - reference) > limits.maxDeviation * reference {
        return PriceDeviation;
      }
      return Approved;
    }
  }
}

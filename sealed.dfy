/** The body of the `try` in `doTest` and what follows it: pick the first
    sealed regular class of the resolved file, compare its inheritors with
    the baseline ignoring order, and reconcile the outcome with `fails`. */
module SealedTarget {
  import opened Errors

  /** A top-level declaration of the resolved file. Only regular classes
      matter here; `sealedInheritors` is the inheritor list attached to the
      class, written as class-id strings, or None when it is absent. */
  datatype Declaration =
    | RegularClass(name: string, isSealed: bool, sealedInheritors: Option<seq<string>>)
    | OtherDeclaration(name: string)

  /** What resolving the file yields: its declarations, or an exception. */
  datatype FirResult = FirFile(declarations: seq<Declaration>) | FirError(cause: string)

  /** How the `try` block ended. */
  datatype TryOutcome = Completed | Threw(error: Failure)

  /** The final verdict of one test run. */
  datatype Verdict = Pass | Fail(error: Failure)

  const RemoveFailsMessage: string :=
    "Looks like test is passing, please remove `\"fails\": true` from structure.json"

  /** `it is FirRegularClass && it.isSealed`. */
  predicate IsSealedClass(d: Declaration)
  {
    d.RegularClass? && d.isSealed
  }

  /** `declarations.firstOrNull { it is FirRegularClass && it.isSealed }`:
      None when no declaration qualifies, and otherwise the qualifying
      declaration that comes first in declaration order. */
  function FirstSealed(ds: seq<Declaration>): (r: Option<Declaration>)
    ensures r.None? <==> forall i :: 0 <= i < |ds| ==> !IsSealedClass(ds[i])
    ensures r.Some? ==> exists i :: 0 <= i < |ds| && ds[i] == r.value && IsSealedClass(ds[i])
                                    && forall j :: 0 <= j < i ==> !IsSealedClass(ds[j])
  {
    if ds == [] then None
    else if IsSealedClass(ds[0]) then Some(ds[0])
    else
      var r := FirstSealed(ds[1..]);
      assert forall i :: 1 <= i < |ds| ==> ds[i] == ds[1..][i - 1];
      r
  }

  /** The tie-break: whatever sealed classes follow, the one selected is the
      first in declaration order, so adding declarations after it changes
      nothing. */
  lemma {:induction false} FirstSealedIgnoresLater(ds: seq<Declaration>, later: seq<Declaration>)
    requires FirstSealed(ds).Some?
    ensures FirstSealed(ds + later) == FirstSealed(ds)
  {
    if !IsSealedClass(ds[0]) {
      assert (ds + later)[1..] == ds[1..] + later;
      FirstSealedIgnoresLater(ds[1..], later);
    }
  }

  /** `declaration?.sealedInheritors` mapped through `asString`: None when
      no sealed class exists or when the selected class carries no list. */
  function SelectedInheritors(ds: seq<Declaration>): (r: Option<seq<string>>)
    ensures r.Some? <==> FirstSealed(ds).Some? && FirstSealed(ds).value.sealedInheritors.Some?
    ensures r.Some? ==> exists i :: 0 <= i < |ds| && IsSealedClass(ds[i]) && ds[i].sealedInheritors == r
                                    && forall j :: 0 <= j < i ==> !IsSealedClass(ds[j])
  {
    match FirstSealed(ds)
    case None => None
    case Some(d) => d.sealedInheritors
  }

  /** `assertEqualsToFileIgnoreOrder(expected.txt, names)`: passes when the
      names are the baseline lines up to order, and throws otherwise. */
  function AssertEqualsIgnoreOrder(baseline: seq<string>, names: seq<string>): (t: TryOutcome)
    ensures t.Completed? <==> multiset(names) == multiset(baseline)
    ensures t.Threw? ==> t.error == BaselineMismatch(multiset(baseline), multiset(names))
  {
    if multiset(names) == multiset(baseline) then Completed
    else Threw(BaselineMismatch(multiset(baseline), multiset(names)))
  }

  /** The comparison ignores order: permuting the names changes nothing. */
  lemma AssertEqualsIgnoresOrder(baseline: seq<string>, names: seq<string>, permuted: seq<string>)
    requires multiset(permuted) == multiset(names)
    ensures AssertEqualsIgnoreOrder(baseline, permuted) == AssertEqualsIgnoreOrder(baseline, names)
  {
  }

  /** The statements inside the `try`: resolve, select, compare. */
  function TryBody(fir: FirResult, baseline: seq<string>): (t: TryOutcome)
    ensures t.Completed? <==> fir.FirFile? && SelectedInheritors(fir.declarations).Some?
                              && multiset(SelectedInheritors(fir.declarations).value) == multiset(baseline)
    ensures t.Threw? ==> t.error.ResolutionError? || t.error.NullInheritors? || t.error.BaselineMismatch?
    ensures fir.FirError? ==> t == Threw(ResolutionError(fir.cause))
    ensures fir.FirFile? && SelectedInheritors(fir.declarations).None? ==> t == Threw(NullInheritors)
    ensures fir.FirFile? && SelectedInheritors(fir.declarations).Some?
            && multiset(SelectedInheritors(fir.declarations).value) != multiset(baseline)
            ==> t == Threw(BaselineMismatch(multiset(baseline), multiset(SelectedInheritors(fir.declarations).value)))
  {
    match fir
    case FirError(cause) => Threw(ResolutionError(cause))
    case FirFile(ds) =>
      var inheritors := SelectedInheritors(ds);
      if inheritors.None? then Threw(NullInheritors)
      else AssertEqualsIgnoreOrder(baseline, inheritors.value)
  }

  /** The `catch` and the check after the `try`: an exception passes only
      when the structure declares `fails`, and is otherwise re-thrown as it
      is; a normal completion passes only when it does not, and otherwise
      fails with the request to remove the flag. */
  function Reconcile(t: TryOutcome, fails: bool): (v: Verdict)
    ensures v == Pass <==> (t.Threw? <==> fails)
    ensures t.Threw? && !fails ==> v == Fail(t.error)
    ensures t.Completed? && fails ==> v == Fail(UnexpectedlyPassing(RemoveFailsMessage))
  {
    match t
    case Threw(e) => if !fails then Fail(e) else Pass
    case Completed => if fails then Fail(UnexpectedlyPassing(RemoveFailsMessage)) else Pass
  }

  /** A failing verdict is either the exception from the `try`, re-thrown
      unchanged, or the unexpectedly-passing error; never anything else. */
  lemma ReconcileFailures(t: TryOutcome, fails: bool)
    requires Reconcile(t, fails).Fail?
    ensures (t.Threw? && !fails && Reconcile(t, fails).error == t.error)
            || (t.Completed? && fails && Reconcile(t, fails).error.UnexpectedlyPassing?)
  {
  }
}

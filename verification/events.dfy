/**
 The event filters the release controller installs on its watch of Releases, and the way the
 two filters combine. A notification reaches `Reconcile` only when every filter admits it.
 */
module Events {

  /** A watch notification for a Release, with the generation(s) it carries. */
  datatype Event =
    | Create(generation: int)
    | Update(oldGeneration: int, newGeneration: int)
    | Delete(generation: int)
    | Generic(generation: int)

  /**
   The second filter, a `predicate.Funcs` whose delete, generic and update functions all return
   false. Its create function is left unset, so what it answers for a creation is library
   behaviour, passed in as `createVerdict`.
   */
  function ExplicitFilter(e: Event, createVerdict: bool): (admit: bool)
    ensures admit ==> e.Create?
    ensures e.Create? ==> admit == createVerdict
    ensures e.Update? || e.Delete? || e.Generic? ==> !admit
  {
    match e
    case Create(_) => createVerdict
    case Update(_, _) => false
    case Delete(_) => false
    case Generic(_) => false
  }

  /**
   Both filters chained with `WithEventFilter`: the generation-change predicate, whose
   behaviour is library code and so a parameter, and the explicit one above.
   */
  function Admits(e: Event, generationChanged: Event -> bool, createVerdict: bool): (admit: bool)
    ensures admit <==> e.Create? && generationChanged(e) && createVerdict
  {
    generationChanged(e) && ExplicitFilter(e, createVerdict)
  }

  /**
   No update reaches the reconciler, whatever generations it carries and whatever the
   generation-change predicate answers; in particular no status-only update does.
   */
  lemma UpdatesNeverAdmitted(oldGeneration: int, newGeneration: int, generationChanged: Event -> bool, createVerdict: bool)
    ensures !Admits(Update(oldGeneration, newGeneration), generationChanged, createVerdict)
  {
  }
}

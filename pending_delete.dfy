/** The pending-delete queue of modules/game-object.mjs: objects to drop from
    the game's lists at the end of the frame. */
module PendingDelete {
  import opened Entities
  import opened JsArrays

  class PendingDeleteQueue {
    /** `gameObjectsPendingDelete`. */
    var pending: seq<GameObject>

    /** No object is queued twice. */
    ghost predicate Valid()
      reads this
    {
      NoDuplicates(pending)
    }

    /** The module starts with an empty queue. */
    constructor ()
      ensures pending == [] && Valid()
    {
      pending := [];
    }

    /** `deleteObject`: disable the object and queue it unless it is queued
        already; queued entries are never moved or dropped. */
    method DeleteObject(o: GameObject)
      requires Valid()
      modifies this, o
      ensures Valid() && !o.enabled
      ensures pending == PushIfAbsent(old(pending), o)
      ensures old(pending) <= pending && o in pending
      ensures old(pending) == pending <==> o in old(pending)
    {
      o.enabled := false;
      var pendingIdx := IndexOf(pending, o);
      PushIfAbsentFacts(pending, o);
      if pendingIdx < 0 {
        pending := pending + [o];
      }
    }

    /** `resetPendingDelete`: the queue is empty again. */
    method ResetPendingDelete()
      modifies this
      ensures pending == [] && Valid()
    {
      pending := [];
    }
  }
}

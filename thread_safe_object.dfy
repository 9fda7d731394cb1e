/** The shared mutable container. In the Swift library a private serial dispatch
    queue makes every `performBlock` run alone; here that exclusion is given
    by construction, since each call is one atomic step on the cell. */
module ThreadSafeObject {

  class ThreadSafeReference<T> {
    var internalObject: T

    constructor (value: T)
      ensures internalObject == value
    {
      internalObject := value;
    }

    /** The wrapped value, read without taking the lock. */
    function UnsafeInternalReference(): (r: T)
      reads this
      ensures r == internalObject
    {
      internalObject
    }

    /** Runs `block` on the wrapped value as one exclusive step: the value
        becomes what `block` makes of it, and nothing else changes. */
    method PerformBlock(block: T --> T)
      requires block.requires(internalObject)
      modifies this
      ensures internalObject == block(old(internalObject))
    {
      internalObject := block(internalObject);
    }
  }

}

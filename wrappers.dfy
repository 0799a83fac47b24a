/** Small wrapper datatypes shared by the modules of the retention sync model. */
module Wrappers {

  /** Python's `Optional[T]`: `None` or a present value. */
  datatype Option<+T> = None | Some(value: T)

  /** The outcome of a step that may raise an exception which nothing catches
      before `main`: `Aborted` stands for that exception. */
  datatype Fallible<+T> = Completed(value: T) | Aborted

  /** Two steps run one after the other whose lists are concatenated;
      the first exception aborts the pair. */
  function Concat<T>(a: Fallible<seq<T>>, b: Fallible<seq<T>>): Fallible<seq<T>>
  {
    if a.Completed? && b.Completed? then Completed(a.value + b.value) else Aborted
  }
}

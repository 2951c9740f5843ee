// An optional value and a stack, shared by the other modules.
module Options {
  datatype Option<+T> = None | Some(value: T)

  // A stack, its top first.
  datatype Stack<T> = Empty | Push(top: T, below: Stack<T>)

  ghost function Height<T>(s: Stack<T>): nat {
    if s.Empty? then 0 else 1 + Height(s.below)
  }
}

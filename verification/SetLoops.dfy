/** Loops over the elements of a set, in any order. */
module SetLoops {

  /** How far a loop over a set has come. */
  ghost predicate Split<T(!new)>(all: set<T>, done: set<T>, todo: set<T>) { all == done + todo && done !! todo }

  lemma SplitStarts<T(!new)>(all: set<T>)
    ensures Split(all, {}, all)
  {
  }

  lemma SplitStep<T(!new)>(all: set<T>, done: set<T>, todo: set<T>, x: T)
    requires Split(all, done, todo) && x in todo
    ensures x in all && Split(all, done + {x}, todo - {x})
  {
  }

  lemma SplitEnd<T(!new)>(all: set<T>, done: set<T>, todo: set<T>)
    requires Split(all, done, todo) && todo == {}
    ensures done == all
  {
  }
}

/** Unspecified choice, for containers whose iteration order the source leaves open. */
module Choice {

  method AnyOf<T>(s: set<T>) returns (x: T)
    requires s != {}
    ensures x in s
  {
    x :| x in s;
  }
}

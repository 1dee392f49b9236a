/** What the two list headers thread together: an application structure with its list links and
  its hash handle. */
module Elements {
  class Element {
    const key: int      // what a lookup compares
    const hashv: nat    // the hash of the key, an arbitrary function of it
    const rank: int     // its place in the order the comparison function defines
    var prev: Element?
    var next: Element?
    var hhPrev: Element?
    var hhNext: Element?

    constructor (key: int, hashv: nat, rank: int)
      ensures this.key == key && this.hashv == hashv && this.rank == rank
    {
      this.key, this.hashv, this.rank := key, hashv, rank;
      prev, next, hhPrev, hhNext := null, null, null, null;
    }
  }

  ghost predicate Distinct(s: seq<Element>) {
    forall i, j :: 0 <= i < j < |s| ==> s[i] != s[j]
  }
}

/**
 What several modules share: optional values, the fates of a transaction, the range of Postgres `bigint`,
 orders on shard lists and the elements of a list.
 */
module Common {
  datatype Option<+T> = None | Some(value: T)

  /** What happens to one transaction: a lost acknowledgement is a commit the client sees as an error. */
  datatype Fate = Commits | Fails | CommitsUnacknowledged

  const INT64_MIN: int := -0x8000_0000_0000_0000
  const INT64_MAX: int := 0x7fff_ffff_ffff_ffff

  predicate FitsInt64(x: int) {
    INT64_MIN <= x <= INT64_MAX
  }

  predicate StrictlyAscending(s: seq<int>) {
    forall i, j :: 0 <= i < j < |s| ==> s[i] < s[j]
  }

  predicate Distinct(s: seq<int>) {
    forall i, j :: 0 <= i < j < |s| ==> s[i] != s[j]
  }

  ghost function Elements<T>(s: seq<T>): set<T> {
    set x | x in s
  }
}

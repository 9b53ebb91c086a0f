/**
 * Which donations the recent-donations table shows
 * (components/RecentDonationsTable.tsx): a sorted copy of the list, newest
 * first, of which the first ten become rows; an empty list shows a message
 * instead of a table. The sort works on a copy, so the list passed in is a
 * value here and nothing changes it.
 */
module RecentDonationsTable {
  import opened Types
  import opened DateOrder

  const MaxRows: nat := 10
  const EmptyMessage: string := "ยังไม่มีข้อมูลการบริจาค"

  datatype View = EmptyState(message: string) | Table(rows: seq<Donation>)

  function Min(a: nat, b: nat): nat { if a <= b then a else b }

  /** `sortedDonations.slice(0, 10)`. */
  function Shown(donations: seq<Donation>): seq<Donation> {
    SortByDateDesc(donations)[..Min(|donations|, MaxRows)]
  }

  /** The donations the sort pushes past the tenth row. */
  function Omitted(donations: seq<Donation>): seq<Donation> {
    SortByDateDesc(donations)[Min(|donations|, MaxRows)..]
  }

  /** What the component renders. */
  function RecentView(donations: seq<Donation>): (v: View)
    ensures v.EmptyState? <==> |donations| == 0
    ensures v.EmptyState? ==> v.message == EmptyMessage
    ensures v.Table? ==> v.rows == Shown(donations)
  {
    if |donations| == 0 then EmptyState(EmptyMessage) else Table(Shown(donations))
  }

  /** With `n` donations, `min(n, 10)` rows are shown, never more than ten, and
      they are newest first. */
  lemma ShownRows(donations: seq<Donation>)
    ensures |Shown(donations)| == Min(|donations|, MaxRows) <= MaxRows
    ensures SortedByDateDesc(Shown(donations))
  {
    var s := SortByDateDesc(donations);
    var k := Min(|donations|, MaxRows);
    forall i, j | 0 <= i < j < |s[..k]| ensures Key(s[..k][i]) >= Key(s[..k][j]) {
      assert s[..k][i] == s[i] && s[..k][j] == s[j];
    }
  }

  /** The shown and omitted rows together are the input, each record once. */
  lemma ShownAndOmitted(donations: seq<Donation>)
    ensures multiset(Shown(donations)) + multiset(Omitted(donations)) == multiset(donations)
    ensures multiset(Shown(donations)) <= multiset(donations)
    ensures |donations| <= MaxRows ==> multiset(Shown(donations)) == multiset(donations)
  {
    var s := SortByDateDesc(donations);
    var k := Min(|donations|, MaxRows);
    assert s == s[..k] + s[k..];
  }

  /** No record left out of the table is dated later than a record shown. */
  lemma NoLaterOmitted(donations: seq<Donation>)
    ensures forall i, j :: 0 <= i < |Shown(donations)| && 0 <= j < |Omitted(donations)| ==>
      Key(Omitted(donations)[j]) <= Key(Shown(donations)[i])
  {
    var s := SortByDateDesc(donations);
    var k := Min(|donations|, MaxRows);
    forall i, j | 0 <= i < |s[..k]| && 0 <= j < |s[k..]| ensures Key(s[k..][j]) <= Key(s[..k][i]) {
      assert s[..k][i] == s[i] && s[k..][j] == s[k + j];
    }
  }

  /** Sorting a list already newest first leaves it as it is (the sort is stable). */
  lemma {:induction false} SortSorted(s: seq<Donation>)
    requires SortedByDateDesc(s)
    ensures SortByDateDesc(s) == s
  {
    if |s| > 0 {
      var rest := s[1..];
      assert SortedByDateDesc(rest) by {
        forall i, j | 0 <= i < j < |rest| ensures Key(rest[i]) >= Key(rest[j]) {
          assert rest[i] == s[i + 1] && rest[j] == s[j + 1];
        }
      }
      SortSorted(rest);
      assert [s[0]] + rest == s;
    }
  }

  /** The table shows the first ten donations of a list that is newest first,
      such as the store's list right after a load. */
  lemma ShownOfSorted(donations: seq<Donation>)
    requires SortedByDateDesc(donations)
    ensures Shown(donations) == donations[..Min(|donations|, MaxRows)]
  {
    SortSorted(donations);
  }
}

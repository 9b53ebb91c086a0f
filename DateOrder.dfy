/**
 * Ordering donations by date, newest first, as both the donation store and the
 * recent-donations table do with
 * `sort((a, b) => new Date(b.donationDate).getTime() - new Date(a.donationDate).getTime())`.
 *
 * `Array.prototype.sort` is stable, so donations with the same date keep their
 * relative order; the insertion sort below is stable in the same way
 * (`SortStable`). The key compares dates by their digits, which orders
 * zero-padded `YYYY-MM-DD` dates as the timestamps do.
 */
module DateOrder {
  import opened Types

  /** The digits of a date string, in order. */
  function DateDigits(date: string): (r: string)
    ensures AllDigits(r)
  {
    if |date| == 0 then ""
    else if IsDigit(date[0]) then [date[0]] + DateDigits(date[1..])
    else DateDigits(date[1..])
  }

  /** The sort key of a date: `YYYY-MM-DD` becomes the number `YYYYMMDD`, which
      orders well-formed dates exactly as their timestamps do. */
  function DateKey(date: string): nat {
    DigitsValue(DateDigits(date))
  }

  function Key(d: Donation): nat { DateKey(d.donationDate) }

  /** Newest first: no donation is dated later than one before it. */
  predicate SortedByDateDesc(s: seq<Donation>) {
    forall i, j :: 0 <= i < j < |s| ==> Key(s[i]) >= Key(s[j])
  }

  /** The tail of a newest-first list is newest first. */
  lemma SortedTail(s: seq<Donation>)
    requires |s| > 0 && SortedByDateDesc(s)
    ensures SortedByDateDesc(s[1..])
  {
    var t := s[1..];
    forall i, j | 0 <= i < j < |t| ensures Key(t[i]) >= Key(t[j]) {
      assert t[i] == s[i + 1] && t[j] == s[j + 1];
    }
  }

  /** A record dated no earlier than the head of a newest-first list can go in front of it. */
  lemma SortedCons(x: Donation, t: seq<Donation>)
    requires SortedByDateDesc(t)
    requires |t| == 0 || Key(x) >= Key(t[0])
    ensures SortedByDateDesc([x] + t)
  {
    var r := [x] + t;
    forall i, j | 0 <= i < j < |r| ensures Key(r[i]) >= Key(r[j]) {
      assert r[j] == t[j - 1];
      if i == 0 {
        assert Key(t[0]) >= Key(t[j - 1]);
      } else {
        assert r[i] == t[i - 1];
      }
    }
  }

  /** Inserts `d` into a newest-first list, ahead of every donation dated the
      same day or earlier. */
  function Insert(d: Donation, s: seq<Donation>): (r: seq<Donation>)
    requires SortedByDateDesc(s)
    ensures SortedByDateDesc(r)
    ensures multiset(r) == multiset(s) + multiset{d}
    ensures |r| == |s| + 1
    ensures r[0] == d || (|s| > 0 && r[0] == s[0])
  {
    if |s| == 0 then [d]
    else if Key(s[0]) <= Key(d) then
      SortedCons(d, s);
      [d] + s
    else
      SortedTail(s);
      var rest := Insert(d, s[1..]);
      KeepHead(d, s, rest);
      [s[0]] + rest
  }

  /** When `d` goes after the head of `s`, the head stays in front of the tail
      with `d` inserted. */
  lemma KeepHead(d: Donation, s: seq<Donation>, rest: seq<Donation>)
    requires |s| > 0 && SortedByDateDesc(s) && Key(s[0]) > Key(d)
    requires SortedByDateDesc(rest) && multiset(rest) == multiset(s[1..]) + multiset{d}
    requires |rest| > 0 && (rest[0] == d || (|s| > 1 && rest[0] == s[1]))
    ensures SortedByDateDesc([s[0]] + rest)
    ensures multiset([s[0]] + rest) == multiset(s) + multiset{d}
  {
    assert Key(s[0]) >= Key(rest[0]) by {
      if rest[0] != d {
        assert rest[0] == s[1];
      }
    }
    SortedCons(s[0], rest);
    assert s == [s[0]] + s[1..];
  }

  /** The donations newest first; equal dates keep their input order. */
  function SortByDateDesc(s: seq<Donation>): (r: seq<Donation>)
    ensures SortedByDateDesc(r)
    ensures multiset(r) == multiset(s)
    ensures |r| == |s|
  {
    if |s| == 0 then []
    else
      var rest := SortByDateDesc(s[1..]);
      assert multiset(s) == multiset(s[1..]) + multiset{s[0]} by {
        assert s == [s[0]] + s[1..];
      }
      Insert(s[0], rest)
  }

  /** The donations of `s` whose key is `k`, in their order in `s`. */
  function WithKey(s: seq<Donation>, k: nat): seq<Donation> {
    if |s| == 0 then [] else (if Key(s[0]) == k then [s[0]] else []) + WithKey(s[1..], k)
  }

  lemma WithKeyCons(x: Donation, t: seq<Donation>, k: nat)
    ensures WithKey([x] + t, k) == (if Key(x) == k then [x] else []) + WithKey(t, k)
  {
    assert ([x] + t)[1..] == t;
  }

  /** When `d` goes after the head of `s`, inserting keeps that head. */
  lemma InsertBehindHead(d: Donation, s: seq<Donation>)
    requires SortedByDateDesc(s) && |s| > 0 && Key(s[0]) > Key(d)
    ensures SortedByDateDesc(s[1..]) && Insert(d, s) == [s[0]] + Insert(d, s[1..])
  {
    SortedTail(s);
  }

  /** Inserting puts `d` in front of every donation with its key. */
  lemma {:induction false} InsertWithKey(d: Donation, s: seq<Donation>, k: nat)
    requires SortedByDateDesc(s)
    ensures WithKey(Insert(d, s), k) == (if Key(d) == k then [d] else []) + WithKey(s, k)
  {
    if |s| == 0 {
      WithKeyCons(d, s, k);
    } else if Key(s[0]) <= Key(d) {
      WithKeyCons(d, s, k);
    } else {
      InsertBehindHead(d, s);
      InsertWithKey(d, s[1..], k);
      WithKeyCons(s[0], Insert(d, s[1..]), k);
      WithKeyCons(s[0], s[1..], k);
      assert s == [s[0]] + s[1..];
    }
  }

  /** Stability: the donations with one key come out in their input order. */
  lemma {:induction false} SortStable(s: seq<Donation>, k: nat)
    ensures WithKey(SortByDateDesc(s), k) == WithKey(s, k)
  {
    if |s| > 0 {
      SortStable(s[1..], k);
      InsertWithKey(s[0], SortByDateDesc(s[1..]), k);
    }
  }
}

/**
 * The donation store of the `useDonations` hook (hooks/useDonations.ts): the
 * list of donations, the loading flag and the current error, the operations
 * that load, add and clear, and the two totals derived from the list.
 *
 * The endpoint is not called here: what it answered is passed in as a
 * `FetchReply` or an `AddReply`. The endpoint URL is given to the constructor.
 */
module DonationStore {
  import opened Wrappers
  import opened Types
  import opened DateOrder

  const UrlNotSetMessage: string := "Please set the Google Apps Script URL in hooks/useDonations.ts"
  const NotOkPrefix: string := "Network response was not ok: "

  /** `SCRIPT_URL.startsWith('https')`. */
  predicate IsHttps(url: string) {
    |url| >= 5 && url[..5] == "https"
  }

  /** What loading the list ended with: `fetch` or `response.json()` threw, the
      response was not ok, or a JSON body arrived. An empty `error` stands for a
      missing (or otherwise falsy) `error` property. */
  datatype FetchReply =
    | FetchThrew(message: string)
    | NotOk(statusText: string)
    | FetchBody(error: string, data: seq<Donation>)

  /** What posting a new donation ended with: `fetch`, `response.text()` or
      `JSON.parse` threw, or a JSON body arrived. */
  datatype AddReply =
    | AddThrew(message: string)
    | AddBody(error: string, data: Donation)

  /** The message a failed load leaves in `error`, if the load failed. */
  function FetchFailure(reply: FetchReply): (r: Option<string>)
    ensures reply.FetchThrew? ==> r == Some(reply.message)
    ensures reply.NotOk? ==> r == Some(NotOkPrefix + reply.statusText)
    ensures reply.FetchBody? && reply.error != "" ==> r == Some(reply.error)
    ensures r.None? <==> reply.FetchBody? && reply.error == ""
  {
    match reply
    case FetchThrew(m) => Some(m)
    case NotOk(t) => Some(NotOkPrefix + t)
    case FetchBody(e, _) => if e != "" then Some(e) else None
  }

  /** The message of the error an add throws, if it throws. */
  function AddFailure(url: string, reply: AddReply): (r: Option<string>)
    ensures !IsHttps(url) ==> r == Some(UrlNotSetMessage)
    ensures IsHttps(url) && reply.AddThrew? ==> r == Some(reply.message)
    ensures IsHttps(url) && reply.AddBody? && reply.error != "" ==> r == Some(reply.error)
    ensures r.None? <==> IsHttps(url) && reply.AddBody? && reply.error == ""
  {
    if !IsHttps(url) then Some(UrlNotSetMessage)
    else match reply
      case AddThrew(m) => Some(m)
      case AddBody(e, _) => if e != "" then Some(e) else None
  }

  class Store {
    const scriptUrl: string
    var donations: seq<Donation>
    var isLoading: bool
    var error: Option<string>

    /** The hook's initial state: no donations, loading, no error. */
    constructor (scriptUrl: string)
      ensures this.scriptUrl == scriptUrl
      ensures donations == [] && isLoading && error.None?
    {
      this.scriptUrl := scriptUrl;
      donations := [];
      isLoading := true;
      error := None;
    }

    /** `fetchDonations`: with a non-https URL, only the error is set. Otherwise a
        load that succeeds clears the error and replaces the list with the data
        newest first; one that fails keeps the list and sets the error. Loading
        is over on every path. */
    method FetchDonations(reply: FetchReply)
      modifies this
      ensures !isLoading
      ensures !IsHttps(scriptUrl) ==> donations == old(donations) && error == Some(UrlNotSetMessage)
      ensures IsHttps(scriptUrl) && FetchFailure(reply).None? ==>
        donations == SortByDateDesc(reply.data) && error.None?
      ensures IsHttps(scriptUrl) && FetchFailure(reply).Some? ==>
        donations == old(donations) && error == FetchFailure(reply)
    {
      if !IsHttps(scriptUrl) {
        error := Some(UrlNotSetMessage);
        isLoading := false;
        return;
      }
      isLoading := true;
      error := None;
      var failure := FetchFailure(reply);
      if failure.Some? {
        error := failure;
      } else {
        donations := SortByDateDesc(reply.data);
      }
      isLoading := false;
    }

    /** `addDonation`: on success the server's record goes in front of the list;
        otherwise the list is kept and the error is thrown to the caller. The
        store's own error and loading flag are not touched. */
    method AddDonation(reply: AddReply) returns (thrown: Option<string>)
      modifies this`donations
      ensures thrown == AddFailure(scriptUrl, reply)
      ensures thrown.None? ==> donations == [reply.data] + old(donations)
      ensures thrown.Some? ==> donations == old(donations)
    {
      thrown := AddFailure(scriptUrl, reply);
      if thrown.None? {
        donations := [reply.data] + donations;
      }
    }

    /** `clearError`: the error is gone and nothing else changes. */
    method ClearError()
      modifies this`error
      ensures error.None?
    {
      error := None;
    }
  }

  // ---------------------------------------------------------------------------
  // The totals

  /** `totalDonation`: the sum of every amount. */
  function Total(ds: seq<Donation>): int {
    if |ds| == 0 then 0 else ds[0].amount + Total(ds[1..])
  }

  /** `donations.filter(d => d.donationDate === todayStr)`. */
  function DatedOn(ds: seq<Donation>, today: string): (r: seq<Donation>)
    ensures forall i :: 0 <= i < |r| ==> r[i].donationDate == today
    ensures forall x :: multiset(r)[x] == if x.donationDate == today then multiset(ds)[x] else 0
    ensures multiset(r) <= multiset(ds)
  {
    if |ds| == 0 then []
    else
      var rest := DatedOn(ds[1..], today);
      assert multiset(ds) == multiset{ds[0]} + multiset(ds[1..]) by {
        assert ds == [ds[0]] + ds[1..];
      }
      if ds[0].donationDate == today then
        assert forall i :: 0 < i < |rest| + 1 ==> ([ds[0]] + rest)[i] == rest[i - 1];
        [ds[0]] + rest
      else rest
  }

  /** `todayDonation`: the sum of the amounts of the donations dated today. */
  function TodayTotal(ds: seq<Donation>, today: string): int {
    Total(DatedOn(ds, today))
  }

  lemma {:induction false} TotalAppend(a: seq<Donation>, b: seq<Donation>)
    ensures Total(a + b) == Total(a) + Total(b)
  {
    if |a| > 0 {
      assert (a + b)[1..] == a[1..] + b;
      TotalAppend(a[1..], b);
    } else {
      assert a + b == b;
    }
  }

  /** Taking one record out of the list takes its amount out of the total. */
  lemma TotalRemove(b: seq<Donation>, k: nat)
    requires k < |b|
    ensures Total(b) == b[k].amount + Total(b[..k] + b[k + 1..])
  {
    var x := b[k];
    assert b == (b[..k] + [x]) + b[k + 1..];
    TotalAppend(b[..k] + [x], b[k + 1..]);
    TotalAppend(b[..k], [x]);
    TotalAppend(b[..k], b[k + 1..]);
    assert Total([x]) == x.amount;
  }

  lemma MultisetRemove(a: seq<Donation>, b: seq<Donation>, k: nat)
    requires multiset(a) == multiset(b) && |a| > 0 && k < |b| && b[k] == a[0]
    ensures multiset(a[1..]) == multiset(b[..k] + b[k + 1..])
  {
    var x := a[0];
    var m1, m2 := multiset(a[1..]), multiset(b[..k] + b[k + 1..]);
    assert multiset(a) == m1 + multiset{x} by {
      assert a == [x] + a[1..];
    }
    assert multiset(b) == m2 + multiset{x} by {
      assert b == b[..k] + [x] + b[k + 1..];
    }
    assert m1 == m2 by {
      forall y ensures m1[y] == m2[y] {
        assert (m1 + multiset{x})[y] == (m2 + multiset{x})[y];
      }
    }
  }

  /** The total does not depend on the order of the list. */
  lemma {:induction false} TotalPermutation(a: seq<Donation>, b: seq<Donation>)
    requires multiset(a) == multiset(b)
    ensures Total(a) == Total(b)
    decreases |a|
  {
    if |a| > 0 {
      var x := a[0];
      assert x in multiset(b);
      var k :| 0 <= k < |b| && b[k] == x;
      MultisetRemove(a, b, k);
      TotalPermutation(a[1..], b[..k] + b[k + 1..]);
      TotalRemove(b, k);
    } else {
      assert |b| == |multiset(b)| == 0;
    }
  }

  lemma {:induction false} DatedOnAppend(a: seq<Donation>, b: seq<Donation>, today: string)
    ensures DatedOn(a + b, today) == DatedOn(a, today) + DatedOn(b, today)
  {
    if |a| > 0 {
      assert (a + b)[0] == a[0] && (a + b)[1..] == a[1..] + b;
      DatedOnAppend(a[1..], b, today);
      var fa, fb := DatedOn(a[1..], today), DatedOn(b, today);
      if a[0].donationDate == today {
        assert [a[0]] + (fa + fb) == ([a[0]] + fa) + fb;
      }
    } else {
      assert a + b == b;
    }
  }

  /** A donation dated any other day adds nothing to today's total, wherever it sits in the list. */
  lemma OtherDayAddsNothing(a: seq<Donation>, d: Donation, b: seq<Donation>, today: string)
    requires d.donationDate != today
    ensures TodayTotal(a + [d] + b, today) == TodayTotal(a + b, today)
  {
    var fa, fb := DatedOn(a, today), DatedOn(b, today);
    DatedOnAppend(a + [d], b, today);
    DatedOnAppend(a, [d], today);
    DatedOnAppend(a, b, today);
    assert DatedOn([d], today) == [] by {
      assert [d][1..] == [];
    }
    assert fa + [] == fa;
  }

  /** A donation dated today adds its amount to today's total. */
  lemma TodayAddsAmount(a: seq<Donation>, d: Donation, b: seq<Donation>, today: string)
    requires d.donationDate == today
    ensures TodayTotal(a + [d] + b, today) == TodayTotal(a + b, today) + d.amount
  {
    DatedOnAppend(a + [d], b, today);
    DatedOnAppend(a, [d], today);
    DatedOnAppend(a, b, today);
    assert DatedOn([d], today) == [d];
    TotalAppend(DatedOn(a, today) + [d], DatedOn(b, today));
    TotalAppend(DatedOn(a, today), [d]);
    TotalAppend(DatedOn(a, today), DatedOn(b, today));
  }

  predicate NonNegativeAmounts(ds: seq<Donation>) {
    forall i :: 0 <= i < |ds| ==> ds[i].amount >= 0
  }

  /** With no negative amount, today's total is at most the total. */
  lemma {:induction false} TodayAtMostTotal(ds: seq<Donation>, today: string)
    requires NonNegativeAmounts(ds)
    ensures 0 <= TodayTotal(ds, today) <= Total(ds)
  {
    if |ds| > 0 {
      TodayAtMostTotal(ds[1..], today);
    }
  }

  /** Loading does not change the total: the sorted list holds the same donations. */
  lemma SortKeepsTotal(data: seq<Donation>)
    ensures Total(SortByDateDesc(data)) == Total(data)
  {
    TotalPermutation(SortByDateDesc(data), data);
  }

  /** An add puts the new record at index 0, shifts the old list to index 1 and
      adds the record's amount to the total. */
  lemma PrependShape(d: Donation, ds: seq<Donation>)
    ensures |[d] + ds| == |ds| + 1 && ([d] + ds)[0] == d && ([d] + ds)[1..] == ds
    ensures Total([d] + ds) == Total(ds) + d.amount
  {
    assert ([d] + ds)[1..] == ds;
  }

  /** Adding keeps the list newest first exactly when the new record is dated no
      earlier than the current first one: a backdated donation breaks the order. */
  lemma PrependKeepsOrder(d: Donation, ds: seq<Donation>)
    requires SortedByDateDesc(ds)
    ensures SortedByDateDesc([d] + ds) <==> (|ds| == 0 || Key(d) >= Key(ds[0]))
  {
    var s := [d] + ds;
    if |ds| > 0 && Key(d) >= Key(ds[0]) {
      forall i, j | 0 <= i < j < |s| ensures Key(s[i]) >= Key(s[j]) {
        if i > 0 {
          assert s[i] == ds[i - 1] && s[j] == ds[j - 1];
        } else {
          assert s[j] == ds[j - 1];
        }
      }
    }
    if SortedByDateDesc(s) && |ds| > 0 {
      assert s[0] == d && s[1] == ds[0];
    }
  }
}

/** The search page's client state (src/app/page.tsx): the recent-search
    history kept in browser storage and what one search does to the page.
    The request itself is a parameter: the outcome of the exchange with the
    analysis endpoint, already decoded. Lower-casing is the `lower`
    parameter, JSON encoding of the history `stringify` and its decoding
    `parse`. */
module SearchPage {
  import opened Wrappers
  import opened Seqs
  import opened Json
  import Strings

  /** One recent search; the page stores only the product name. */
  datatype HistoryItem = HistoryItem(product: string)

  /** The history keeps at most this many entries: the new one and four older. */
  const HistoryCap: nat := 5

  /** Two product names are the same search when they lower-case alike. */
  predicate SameProduct(lower: string -> string, a: string, b: string) {
    lower(a) == lower(b)
  }

  /** The entries of `prev` naming a different product, in their order. */
  function Others(prev: seq<HistoryItem>, product: string, lower: string -> string): (r: seq<HistoryItem>)
    ensures |r| <= |prev|
    ensures forall h | h in r :: h in prev && !SameProduct(lower, h.product, product)
    ensures forall h | h in prev && !SameProduct(lower, h.product, product) :: h in r
  {
    if prev == [] then []
    else if SameProduct(lower, prev[0].product, product) then Others(prev[1..], product, lower)
    else [prev[0]] + Others(prev[1..], product, lower)
  }

  /** The history after a successful search for `product`. */
  function UpdateHistory(prev: seq<HistoryItem>, product: string, lower: string -> string): seq<HistoryItem>
  {
    [HistoryItem(product)] + Take(Others(prev, product, lower), HistoryCap - 1)
  }

  /** `a` occurs in `b` in order, possibly with gaps. */
  predicate Subsequence<T(==)>(a: seq<T>, b: seq<T>)
    decreases |b|
  {
    if a == [] then true
    else if b == [] then false
    else (a[0] == b[0] && Subsequence(a[1..], b[1..])) || Subsequence(a, b[1..])
  }

  lemma {:induction false} SubsequencePrefix<T>(a: seq<T>, b: seq<T>, n: nat)
    requires Subsequence(a, b)
    ensures Subsequence(Take(a, n), b)
    decreases |b|
  {
    if a == [] || n == 0 {
    } else if b == [] {
    } else if a[0] == b[0] && Subsequence(a[1..], b[1..]) {
      SubsequencePrefix(a[1..], b[1..], n - 1);
      TakeCons(a[0], a[1..], n);
      assert a == [a[0]] + a[1..];
      assert Take(a, n)[1..] == Take(a[1..], n - 1);
    } else {
      SubsequencePrefix(a, b[1..], n);
    }
  }

  lemma {:induction false} OthersSubsequence(prev: seq<HistoryItem>, product: string, lower: string -> string)
    ensures Subsequence(Others(prev, product, lower), prev)
    decreases |prev|
  {
    if prev != [] {
      OthersSubsequence(prev[1..], product, lower);
      var rest := Others(prev[1..], product, lower);
      if !SameProduct(lower, prev[0].product, product) {
        assert ([prev[0]] + rest)[1..] == rest;
      } else if rest != [] {
        assert Subsequence(rest, prev[1..]);
      }
    }
  }

  /** The searched product heads the new history, which never holds more
      than five entries, and is one longer than the kept older entries. */
  lemma UpdateHistoryShape(prev: seq<HistoryItem>, product: string, lower: string -> string)
    ensures var r := UpdateHistory(prev, product, lower);
      && r[0] == HistoryItem(product)
      && |r| <= HistoryCap
      && |r| <= |prev| + 1
  {
  }

  /** The product appears exactly once, at the front, whatever case earlier
      searches used: a repeated search moves the entry instead of copying it. */
  lemma ProductOnlyAtFront(prev: seq<HistoryItem>, product: string, lower: string -> string)
    ensures var r := UpdateHistory(prev, product, lower);
      forall i | 0 <= i < |r| :: SameProduct(lower, r[i].product, product) <==> i == 0
  {
    var r := UpdateHistory(prev, product, lower);
    var kept := Take(Others(prev, product, lower), HistoryCap - 1);
    forall i | 0 < i < |r|
      ensures !SameProduct(lower, r[i].product, product)
    {
      assert r[i] == kept[i - 1];
      assert kept[i - 1] in Others(prev, product, lower);
    }
  }

  /** The older entries are taken from the previous history in their
      original order, each naming a different product. */
  lemma TailFromPrevious(prev: seq<HistoryItem>, product: string, lower: string -> string)
    ensures var r := UpdateHistory(prev, product, lower);
      && Subsequence(r[1..], prev)
      && forall h | h in r[1..] :: h in prev && !SameProduct(lower, h.product, product)
  {
    var r := UpdateHistory(prev, product, lower);
    OthersSubsequence(prev, product, lower);
    SubsequencePrefix(Others(prev, product, lower), prev, HistoryCap - 1);
    assert r[1..] == Take(Others(prev, product, lower), HistoryCap - 1);
  }

  /** Nothing is lost while there is room: when at most four older entries
      name other products, every one of them is kept; otherwise exactly
      four are, and the history is full. */
  lemma TailKeepsWhatFits(prev: seq<HistoryItem>, product: string, lower: string -> string)
    ensures var r := UpdateHistory(prev, product, lower);
      var others := Others(prev, product, lower);
      && (|others| <= HistoryCap - 1 ==>
            forall h | h in prev && !SameProduct(lower, h.product, product) :: h in r)
      && (|others| > HistoryCap - 1 ==> |r| == HistoryCap)
      && r[1..] <= others
      && (|others| > HistoryCap - 1 ==> r[1..] == others[..HistoryCap - 1])
  {
    var r := UpdateHistory(prev, product, lower);
    var others := Others(prev, product, lower);
    if |others| <= HistoryCap - 1 {
      assert r == [HistoryItem(product)] + others;
      forall h | h in prev && !SameProduct(lower, h.product, product)
        ensures h in r
      {
        assert h in others;
      }
    }
  }

  /** The filter works entry by entry: filtering a history in two parts is
      filtering each part. */
  lemma {:induction false} OthersAppend(a: seq<HistoryItem>, b: seq<HistoryItem>, product: string,
                                        lower: string -> string)
    ensures Others(a + b, product, lower) == Others(a, product, lower) + Others(b, product, lower)
    decreases |a|
  {
    if a == [] {
      assert a + b == b;
    } else {
      assert (a + b)[0] == a[0] && (a + b)[1..] == a[1..] + b;
      OthersAppend(a[1..], b, product, lower);
      if !SameProduct(lower, a[0].product, product) {
        AppendAssoc([a[0]], Others(a[1..], product, lower), Others(b, product, lower));
      }
    }
  }

  /** A single entry survives the filter exactly when it names another
      product. */
  lemma OthersSingle(h: HistoryItem, product: string, lower: string -> string)
    ensures Others([h], product, lower) == if SameProduct(lower, h.product, product) then [] else [h]
  {
    assert [h][1..] == [];
  }

  lemma {:induction false} OthersAllKept(prev: seq<HistoryItem>, product: string, lower: string -> string)
    requires forall i | 0 <= i < |prev| :: !SameProduct(lower, prev[i].product, product)
    ensures Others(prev, product, lower) == prev
    decreases |prev|
  {
    if prev != [] {
      OthersAllKept(prev[1..], product, lower);
      assert [prev[0]] + prev[1..] == prev;
    }
  }

  /** A new product pushes out the oldest entry: with at least four older
      entries none of which matches, the first four stay in order and the
      rest fall off. */
  lemma OldestDropped(prev: seq<HistoryItem>, product: string, lower: string -> string)
    requires |prev| >= HistoryCap - 1
    requires forall i | 0 <= i < |prev| :: !SameProduct(lower, prev[i].product, product)
    ensures UpdateHistory(prev, product, lower) == [HistoryItem(product)] + prev[..HistoryCap - 1]
  {
    OthersAllKept(prev, product, lower);
  }

  /** No two entries name the same product case-insensitively. */
  predicate Distinct(h: seq<HistoryItem>, lower: string -> string) {
    forall i, j | 0 <= i < j < |h| :: !SameProduct(lower, h[i].product, h[j].product)
  }

  lemma {:induction false} OthersDistinct(prev: seq<HistoryItem>, product: string, lower: string -> string)
    requires Distinct(prev, lower)
    ensures Distinct(Others(prev, product, lower), lower)
    decreases |prev|
  {
    if prev != [] {
      DistinctTail(prev, lower);
      OthersDistinct(prev[1..], product, lower);
      var rest := Others(prev[1..], product, lower);
      if !SameProduct(lower, prev[0].product, product) {
        assert Others(prev, product, lower) == [prev[0]] + rest;
        DistinctCons(prev[0], rest, lower);
      }
    }
  }

  /** The entries after the first of a distinct history are distinct, and
      none names the first one's product. */
  lemma DistinctTail(prev: seq<HistoryItem>, lower: string -> string)
    requires prev != [] && Distinct(prev, lower)
    ensures Distinct(prev[1..], lower)
    ensures forall y | y in prev[1..] :: !SameProduct(lower, prev[0].product, y.product)
  {
    var t := prev[1..];
    forall i, j | 0 <= i < j < |t|
      ensures !SameProduct(lower, t[i].product, t[j].product)
    {
      assert t[i] == prev[i + 1] && t[j] == prev[j + 1];
    }
    forall y | y in t
      ensures !SameProduct(lower, prev[0].product, y.product)
    {
      var k :| 0 <= k < |t| && t[k] == y;
      assert prev[k + 1] == y;
    }
  }

  /** An entry naming none of the products of a distinct history can go in
      front of it. */
  lemma DistinctCons(x: HistoryItem, rest: seq<HistoryItem>, lower: string -> string)
    requires Distinct(rest, lower)
    requires forall y | y in rest :: !SameProduct(lower, x.product, y.product)
    ensures Distinct([x] + rest, lower)
  {
    var r := [x] + rest;
    forall i, j | 0 <= i < j < |r|
      ensures !SameProduct(lower, r[i].product, r[j].product)
    {
      assert r[j] == rest[j - 1];
      if i > 0 {
        assert r[i] == rest[i - 1];
      } else {
        assert rest[j - 1] in rest;
      }
    }
  }

  /** A well-kept history: distinct products, at most five of them. */
  predicate WellKept(h: seq<HistoryItem>, lower: string -> string) {
    |h| <= HistoryCap && Distinct(h, lower)
  }

  /** Every search keeps the history well kept, so a history that starts
      empty never holds a repeated product or more than five entries. */
  lemma UpdateKeepsWellKept(prev: seq<HistoryItem>, product: string, lower: string -> string)
    requires Distinct(prev, lower)
    ensures WellKept(UpdateHistory(prev, product, lower), lower)
  {
    var r := UpdateHistory(prev, product, lower);
    var others := Others(prev, product, lower);
    OthersDistinct(prev, product, lower);
    ProductOnlyAtFront(prev, product, lower);
    var kept := Take(others, HistoryCap - 1);
    assert kept <= others;
    forall i, j | 0 <= i < j < |r|
      ensures !SameProduct(lower, r[i].product, r[j].product)
    {
      if i > 0 {
        assert r[i] == others[i - 1] && r[j] == others[j - 1];
      } else {
        assert SameProduct(lower, r[i].product, product);
        assert !SameProduct(lower, r[j].product, product);
      }
    }
  }

  // ---------------------------------------------------------------------
  // One search as seen by the page

  /** The page state: the shown result, the loading flag, the shown error,
      the history, and the string last written to browser storage. */
  datatype PageState = PageState(
    result: Option<Json>,
    loading: bool,
    error: Option<string>,
    history: seq<HistoryItem>,
    stored: Option<string>)

  /** How the request ended: the endpoint answered with a non-ok status
      (with the `detail` field of its error body, if the body decoded and
      had one), the request or the decoding of its body threw an error with
      this message, or the body was delivered. */
  datatype Exchange = NotOk(detail: Option<string>) | Threw(message: string) | Delivered(data: Json)

  const NotOkFallback := "Something went wrong while consulting Reddit."
  const ThrownFallback := "An unexpected error occurred."

  /** The message shown for a failed exchange: JavaScript's `||` passes an
      empty string over in favour of the fallback. */
  function ErrorText(e: Exchange): string
    requires !e.Delivered?
  {
    match e
    case NotOk(detail) => if detail.Some? && detail.value != "" then detail.value else NotOkFallback
    case Threw(m) => if m != "" then m else ThrownFallback
  }

  /** The state after a search for `product` whose exchange ended as `e`. */
  function HandleSearch(st: PageState, product: string, e: Exchange, lower: string -> string,
                        stringify: seq<HistoryItem> -> string): (r: PageState)
    ensures !r.loading || r == st
  {
    if Strings.IsBlank(Strings.JavaScript, product) then st
    else match e
      case Delivered(data) =>
        var h := UpdateHistory(st.history, product, lower);
        PageState(Some(data), false, None, h, Some(stringify(h)))
      case _ =>
        PageState(None, false, Some(ErrorText(e)), st.history, st.stored)
  }

  /** A blank or whitespace-only product changes nothing. */
  lemma BlankSearchIgnored(st: PageState, product: string, e: Exchange, lower: string -> string,
                           stringify: seq<HistoryItem> -> string)
    requires Strings.IsBlank(Strings.JavaScript, product)
    ensures HandleSearch(st, product, e, lower, stringify) == st
  {
  }

  /** A failed search shows a non-empty error and no result, and leaves the
      history and the stored value as they were. */
  lemma FailureKeepsHistory(st: PageState, product: string, e: Exchange, lower: string -> string,
                            stringify: seq<HistoryItem> -> string)
    requires !Strings.IsBlank(Strings.JavaScript, product) && !e.Delivered?
    ensures var r := HandleSearch(st, product, e, lower, stringify);
      && r.history == st.history && r.stored == st.stored
      && r.result == None && !r.loading
      && r.error.Some? && r.error.value != ""
  {
  }

  /** The shown error is the endpoint's `detail` when it gave a non-empty
      one, the thrown message when non-empty, and otherwise the matching
      fixed text. */
  lemma FailureMessages(st: PageState, product: string, e: Exchange, lower: string -> string,
                        stringify: seq<HistoryItem> -> string)
    requires !Strings.IsBlank(Strings.JavaScript, product) && !e.Delivered?
    ensures var err := HandleSearch(st, product, e, lower, stringify).error;
      && (e.NotOk? && e.detail.Some? && e.detail.value != "" ==> err == Some(e.detail.value))
      && (e.NotOk? && (e.detail == None || e.detail == Some("")) ==> err == Some(NotOkFallback))
      && (e.Threw? && e.message != "" ==> err == Some(e.message))
      && (e.Threw? && e.message == "" ==> err == Some(ThrownFallback))
  {
  }

  /** A delivered result is shown without an error; the new history starts
      with the product, is well kept whenever the old one had distinct
      products, and is exactly what was written to storage. */
  lemma SuccessUpdatesHistory(st: PageState, product: string, data: Json, lower: string -> string,
                              stringify: seq<HistoryItem> -> string)
    requires !Strings.IsBlank(Strings.JavaScript, product)
    ensures var r := HandleSearch(st, product, Delivered(data), lower, stringify);
      && r.result == Some(data) && r.error == None && !r.loading
      && r.history == UpdateHistory(st.history, product, lower)
      && r.history[0] == HistoryItem(product)
      && r.stored == Some(stringify(r.history))
      && (Distinct(st.history, lower) ==> WellKept(r.history, lower))
  {
    if Distinct(st.history, lower) {
      UpdateKeepsWellKept(st.history, product, lower);
    }
  }

  // ---------------------------------------------------------------------
  // Loading the history when the page mounts

  /** The state after mounting with `saved` in storage: an absent or empty
      value leaves the history empty, a value that decodes becomes the
      history, and one that does not decode resets it to empty. */
  function Mount(saved: Option<string>, parse: string -> Option<seq<HistoryItem>>): (r: PageState)
    ensures r.result == None && !r.loading && r.error == None && r.stored == saved
    ensures saved.Some? && saved.value != "" && parse(saved.value).Some? ==> r.history == parse(saved.value).value
    ensures saved.None? || saved == Some("") || parse(saved.value).None? ==> r.history == []
  {
    var h := if saved.Some? && saved.value != "" then parse(saved.value).GetOr([]) else [];
    PageState(None, false, None, h, saved)
  }

  /** What a successful search writes to storage is what the next mount
      reads back, provided the JSON encoding round-trips and never yields
      the empty string (an encoded array always starts with a bracket). */
  lemma ReloadRestoresHistory(st: PageState, product: string, data: Json, lower: string -> string,
                              stringify: seq<HistoryItem> -> string,
                              parse: string -> Option<seq<HistoryItem>>)
    requires !Strings.IsBlank(Strings.JavaScript, product)
    requires var h := UpdateHistory(st.history, product, lower);
      parse(stringify(h)) == Some(h) && stringify(h) != ""
    ensures var r := HandleSearch(st, product, Delivered(data), lower, stringify);
      Mount(r.stored, parse).history == r.history
  {
  }
}

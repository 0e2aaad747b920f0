/**
 * The sequential load generator of q2commune_noparallel.py: one GET per URL,
 * in list order, over a URL list repeated to approach a total request count.
 */
module BatchFetch {
  import opened Wrappers
  import opened Http
  import RetryClient

  /**
   * `fetch(url)` given the outcome of its single GET: the parsed body exactly
   * when the status is 200, `None` for every other status and for every
   * exception.
   */
  function Fetch<J>(outcome: Outcome<J>): (data: Option<J>)
    ensures data.Some? <==> outcome.Response? && outcome.status == OK
    ensures data.Some? ==> data.value == outcome.body
  {
    match outcome
    case Response(status, _, body) => if status == OK then Some(body) else None
    case _ => None
  }

  /**
   * `fetch` returns what a retrying call allowed a single attempt returns:
   * the two differ only in the sleeps the retrying call makes.
   */
  lemma FetchIsOneAttempt<J>(net: nat -> Outcome<J>, backoffFactor: nat)
    ensures Fetch(net(0)) == RetryClient.CallFrom(net, 1, backoffFactor, 0).result
  {
    assert RetryClient.CallFrom(net, 1, backoffFactor, 1) == RetryClient.Call(None, [], 0);
  }

  /**
   * `fetch_all(urls)`: one `fetch` per URL, one at a time and in list order;
   * `net(i, url)` is the outcome of the `i`-th request, made to `url`.
   */
  method FetchAll<J>(urls: seq<string>, net: (nat, string) -> Outcome<J>) returns (results: seq<Option<J>>)
    ensures |results| == |urls|
    ensures forall i | 0 <= i < |urls| :: results[i] == Fetch(net(i, urls[i]))
  {
    var tasks := [];
    for i := 0 to |urls|
      invariant |tasks| == i
      invariant forall k | 0 <= k < i :: tasks[k] == Fetch(net(k, urls[k]))
    {
      tasks := tasks + [Fetch(net(i, urls[i]))];
    }
    results := tasks;
  }

  /** Python's `urls * n`: `n` copies of `urls` one after the other, and `[]` when `n <= 0`. */
  function Repeat(urls: seq<string>, n: int): (all: seq<string>)
    ensures n <= 0 ==> all == []
    ensures n > 0 ==> |all| == |urls| * n
    decreases n
  {
    if n <= 0 then [] else Repeat(urls, n - 1) + urls
  }

  /** Position `i` of a repeated list holds `urls[i % |urls|]`. */
  lemma {:induction false} RepeatAt(urls: seq<string>, n: int, i: nat)
    requires i < |Repeat(urls, n)|
    ensures |urls| > 0 && Repeat(urls, n)[i] == urls[i % |urls|]
    decreases n
  {
    var prev := |urls| * (n - 1);
    assert |Repeat(urls, n - 1)| == prev by {
      if n - 1 <= 0 {
        assert n == 1;
      }
    }
    if i < prev {
      RepeatAt(urls, n - 1, i);
    } else {
      var j := i - prev;
      assert j < |urls|;
      assert (prev + j) % |urls| == j by {
        ModAfterMultiple(|urls|, n - 1, j);
      }
    }
  }

  /** A whole number of copies followed by `j < m` more leaves remainder `j`. */
  lemma ModAfterMultiple(m: nat, q: nat, j: nat)
    requires j < m
    ensures (m * q + j) % m == j
  {
    var x := m * q + j;
    var d, r := x / m, x % m;
    assert m * d + r == m * q + j;
    if q > d {
      AtLeastOneCopy(m, q - d);
    } else if d > q {
      AtLeastOneCopy(m, d - q);
    }
  }

  lemma {:induction false} AtLeastOneCopy(m: nat, k: nat)
    requires k >= 1
    ensures m * k >= m
  {
    if k > 1 {
      AtLeastOneCopy(m, k - 1);
      assert m * k == m * (k - 1) + m;
    }
  }

  /**
   * The URL list of `simulate_high_load`: `urls * (total_requests // len(urls))`,
   * Python's floor division agreeing with Dafny's for the positive `len(urls)`.
   * It holds `len(urls) * (total_requests // len(urls))` URLs: at most
   * `total_requests`, fewer than `len(urls)` short of it, and none at all when
   * `total_requests < len(urls)`; the remainder is dropped.
   */
  function Expand(urls: seq<string>, totalRequests: int): (all: seq<string>)
    requires |urls| > 0
    ensures totalRequests >= 0 ==> |all| == |urls| * (totalRequests / |urls|)
    ensures totalRequests >= 0 ==> totalRequests - |urls| < |all| <= totalRequests
    ensures totalRequests < |urls| ==> all == []
  {
    var q := totalRequests / |urls|;
    assert totalRequests == |urls| * q + totalRequests % |urls|;
    Repeat(urls, q)
  }

  /** Three URLs and 100 requests make 99 requests, the URLs taken in turn. */
  lemma ThreeUrlsHundredRequests(a: string, b: string, c: string)
    ensures |Expand([a, b, c], 100)| == 99
    ensures forall i | 0 <= i < 99 :: Expand([a, b, c], 100)[i] == [a, b, c][i % 3]
  {
    assert Expand([a, b, c], 100) == Repeat([a, b, c], 33) by {
      assert 100 / |[a, b, c]| == 33;
    }
    forall i | 0 <= i < 99
      ensures Expand([a, b, c], 100)[i] == [a, b, c][i % 3]
    {
      RepeatAt([a, b, c], 33, i);
    }
  }

  /**
   * `simulate_high_load(urls, total_requests)` without its timing: fetches
   * the expanded list; request `i` goes to `urls[i % len(urls)]`.
   */
  method SimulateHighLoad<J>(urls: seq<string>, totalRequests: int, net: (nat, string) -> Outcome<J>)
    returns (results: seq<Option<J>>)
    requires |urls| > 0
    ensures |results| == |Expand(urls, totalRequests)|
    ensures forall i | 0 <= i < |results| :: results[i] == Fetch(net(i, urls[i % |urls|]))
  {
    var allUrls := Expand(urls, totalRequests);
    results := FetchAll(allUrls, net);
    forall i | 0 <= i < |results|
      ensures results[i] == Fetch(net(i, urls[i % |urls|]))
    {
      RepeatAt(urls, totalRequests / |urls|, i);
    }
  }
}

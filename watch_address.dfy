/**
 * The view model computed by the balance query of `useWatchAddress`: from the
 * UTXOs of the watched address, the satoshi balance of the token-less UTXOs,
 * the balance of one token, and the UTXOs carrying that token. Fetching the
 * UTXOs is I/O; here they are a parameter.
 */
module WatchAddress {
  import opened Wrappers

  datatype Token = Token(tokenId: string, amount: nat)

  datatype Utxo = Utxo(satoshis: nat, token: Option<Token>)

  datatype WatchData = WatchData(utxos: seq<Utxo>, balance: nat, tokenUtxos: seq<Utxo>, tokenBalance: nat)

  /** The query's initial data, and its result when there is no wallet. */
  const Empty := WatchData([], 0, [], 0)

  /**
   * `utxo.token?.tokenId === tokenId`: a token-less UTXO gives `undefined`,
   * which equals an absent `tokenId`.
   */
  predicate Matches(u: Utxo, tokenId: Option<string>)
    ensures u.token.Some? ==> (Matches(u, tokenId) <==> tokenId == Some(u.token.value.tokenId))
    ensures u.token.None? ==> (Matches(u, tokenId) <==> tokenId.None?)
    ensures tokenId.None? ==> (Matches(u, tokenId) <==> u.token.None?)
  {
    if u.token.None? then tokenId.None? else tokenId == Some(u.token.value.tokenId)
  }

  /** `utxo.token?.amount ?? 0n`. */
  function Amount(u: Utxo): nat
  {
    if u.token.Some? then u.token.value.amount else 0
  }

  /** JavaScript truthiness of the optional string `tokenId`. */
  predicate Truthy(tokenId: Option<string>)
  {
    tokenId.Some? && tokenId.value != ""
  }

  /**
   * The `balance` fold, `acc + (utxo.token ? 0 : utxo.satoshis)` from the
   * left: the satoshi sum over exactly the token-less UTXOs.
   */
  function Balance(utxos: seq<Utxo>): (r: nat)
    ensures r == SumSatoshis(WithoutToken(utxos))
    decreases |utxos|
  {
    if utxos == [] then 0
    else
      var init, u := utxos[..|utxos| - 1], utxos[|utxos| - 1];
      assert utxos == init + [u];
      WithoutTokenAppend(init, [u]);
      SumSatoshisAppend(WithoutToken(init), WithoutToken([u]));
      Balance(init) + (if u.token.Some? then 0 else u.satoshis)
  }

  /**
   * The `tokenBalance` fold from the left: the token-amount sum over exactly
   * the UTXOs whose token id is `tokenId`.
   */
  function TokenBalance(utxos: seq<Utxo>, tokenId: Option<string>): (r: nat)
    ensures r == SumAmounts(FilterMatching(utxos, tokenId))
    decreases |utxos|
  {
    if utxos == [] then 0
    else
      var init, u := utxos[..|utxos| - 1], utxos[|utxos| - 1];
      assert utxos == init + [u];
      FilterAppend(init, [u], tokenId);
      SumAmountsAppend(FilterMatching(init, tokenId), FilterMatching([u], tokenId));
      TokenBalance(init, tokenId) + (if Matches(u, tokenId) then Amount(u) else 0)
  }

  /** `utxos.filter(utxo => utxo.token?.tokenId === tokenId)`. */
  function FilterMatching(utxos: seq<Utxo>, tokenId: Option<string>): (r: seq<Utxo>)
    ensures |r| <= |utxos|
    ensures forall i :: 0 <= i < |r| ==> Matches(r[i], tokenId) && r[i] in utxos
    ensures forall u :: u in utxos && Matches(u, tokenId) ==> u in r
    ensures forall v {:trigger multiset(r)[v]} :: multiset(r)[v] == if Matches(v, tokenId) then multiset(utxos)[v] else 0
  {
    if utxos == [] then []
    else
      var head := if Matches(utxos[0], tokenId) then [utxos[0]] else [];
      var rest := FilterMatching(utxos[1..], tokenId);
      assert utxos == [utxos[0]] + utxos[1..];
      assert multiset(utxos) == multiset([utxos[0]]) + multiset(utxos[1..]);
      assert multiset(head + rest) == multiset(head) + multiset(rest);
      head + rest
  }

  /**
   * `tokenId ? utxos.filter(...) : utxos`. With a (non-empty) token id: the
   * order-preserving subsequence of the UTXOs carrying that token, each as
   * often as in `utxos`; without one (or with ""): `utxos` itself.
   */
  function TokenUtxos(utxos: seq<Utxo>, tokenId: Option<string>): (r: seq<Utxo>)
    ensures !Truthy(tokenId) ==> r == utxos
    ensures Truthy(tokenId) ==>
      IsSubsequence(r, utxos)
      && (forall i :: 0 <= i < |r| ==> r[i].token.Some? && r[i].token.value.tokenId == tokenId.value)
      && (forall v :: multiset(r)[v] ==
            if v.token.Some? && v.token.value.tokenId == tokenId.value then multiset(utxos)[v] else 0)
  {
    if Truthy(tokenId) then
      FilterIsSubsequence(utxos, tokenId);
      FilterMatching(utxos, tokenId)
    else utxos
  }

  /** The query function; `wallet` is the UTXO list it fetches, `None` when there is no wallet. */
  function Query(wallet: Option<seq<Utxo>>, tokenId: Option<string>): (r: WatchData)
    ensures wallet.None? ==> r == Empty
    ensures wallet.Some? ==> r.utxos == wallet.value
  {
    match wallet
    case None => Empty
    case Some(utxos) => WatchData(utxos, Balance(utxos), TokenUtxos(utxos, tokenId), TokenBalance(utxos, tokenId))
  }

  // ---- reference definitions ----

  function SumSatoshis(utxos: seq<Utxo>): nat
  {
    if utxos == [] then 0 else utxos[0].satoshis + SumSatoshis(utxos[1..])
  }

  function SumAmounts(utxos: seq<Utxo>): nat
  {
    if utxos == [] then 0 else Amount(utxos[0]) + SumAmounts(utxos[1..])
  }

  function WithoutToken(utxos: seq<Utxo>): seq<Utxo>
  {
    if utxos == [] then []
    else (if utxos[0].token.None? then [utxos[0]] else []) + WithoutToken(utxos[1..])
  }

  predicate IsSubsequence(r: seq<Utxo>, s: seq<Utxo>)
    decreases |s|
  {
    if r == [] then true
    else if s == [] then false
    else if r[0] == s[0] then IsSubsequence(r[1..], s[1..])
    else IsSubsequence(r, s[1..])
  }

  // ---- lemmas ----

  lemma {:induction false} WithoutTokenAppend(a: seq<Utxo>, b: seq<Utxo>)
    ensures WithoutToken(a + b) == WithoutToken(a) + WithoutToken(b)
    decreases |a|
  {
    if a == [] {
      assert a + b == b;
    } else {
      assert (a + b)[1..] == a[1..] + b;
      WithoutTokenAppend(a[1..], b);
    }
  }

  lemma {:induction false} FilterAppend(a: seq<Utxo>, b: seq<Utxo>, tokenId: Option<string>)
    ensures FilterMatching(a + b, tokenId) == FilterMatching(a, tokenId) + FilterMatching(b, tokenId)
    decreases |a|
  {
    if a == [] {
      assert a + b == b;
    } else {
      assert (a + b)[1..] == a[1..] + b;
      FilterAppend(a[1..], b, tokenId);
    }
  }

  lemma {:induction false} SumSatoshisAppend(a: seq<Utxo>, b: seq<Utxo>)
    ensures SumSatoshis(a + b) == SumSatoshis(a) + SumSatoshis(b)
    decreases |a|
  {
    if a == [] {
      assert a + b == b;
    } else {
      assert (a + b)[1..] == a[1..] + b;
      SumSatoshisAppend(a[1..], b);
    }
  }

  lemma {:induction false} SumAmountsAppend(a: seq<Utxo>, b: seq<Utxo>)
    ensures SumAmounts(a + b) == SumAmounts(a) + SumAmounts(b)
    decreases |a|
  {
    if a == [] {
      assert a + b == b;
    } else {
      assert (a + b)[1..] == a[1..] + b;
      SumAmountsAppend(a[1..], b);
    }
  }

  lemma {:induction false} BalanceAppend(a: seq<Utxo>, b: seq<Utxo>)
    ensures Balance(a + b) == Balance(a) + Balance(b)
    decreases |b|
  {
    if b == [] {
      assert a + b == a;
    } else {
      var b' := b[..|b| - 1];
      assert (a + b)[..|a + b| - 1] == a + b';
      BalanceAppend(a, b');
    }
  }

  lemma {:induction false} TokenBalanceAppend(a: seq<Utxo>, b: seq<Utxo>, tokenId: Option<string>)
    ensures TokenBalance(a + b, tokenId) == TokenBalance(a, tokenId) + TokenBalance(b, tokenId)
    decreases |b|
  {
    if b == [] {
      assert a + b == a;
    } else {
      var b' := b[..|b| - 1];
      assert (a + b)[..|a + b| - 1] == a + b';
      TokenBalanceAppend(a, b', tokenId);
    }
  }

  /** Without a token id, only token-less UTXOs match, and they carry no amount. */
  lemma {:induction false} NoTokenIdHasZeroTokenBalance(utxos: seq<Utxo>)
    ensures TokenBalance(utxos, None) == 0
    decreases |utxos|
  {
    if utxos != [] {
      NoTokenIdHasZeroTokenBalance(utxos[..|utxos| - 1]);
    }
  }

  lemma {:induction false} FilterIsSubsequence(utxos: seq<Utxo>, tokenId: Option<string>)
    ensures IsSubsequence(FilterMatching(utxos, tokenId), utxos)
  {
    if utxos != [] {
      var r := FilterMatching(utxos, tokenId);
      FilterIsSubsequence(utxos[1..], tokenId);
      if Matches(utxos[0], tokenId) {
        assert r[1..] == FilterMatching(utxos[1..], tokenId);
      } else {
        assert r == FilterMatching(utxos[1..], tokenId);
        assert r != [] ==> r[0] != utxos[0];
      }
    }
  }

  /** With a (non-empty) token id, `tokenBalance` is the amount held by `tokenUtxos`. */
  lemma TokenBalanceOverTokenUtxos(utxos: seq<Utxo>, tokenId: Option<string>)
    requires Truthy(tokenId)
    ensures TokenBalance(utxos, tokenId) == SumAmounts(TokenUtxos(utxos, tokenId))
  {
  }

  /** The query result satisfies all of the above at once. */
  lemma QueryConsistent(utxos: seq<Utxo>, tokenId: Option<string>)
    ensures var r := Query(Some(utxos), tokenId);
      r.balance == SumSatoshis(WithoutToken(utxos))
      && r.tokenBalance == SumAmounts(FilterMatching(utxos, tokenId))
      && (tokenId.None? ==> r.tokenBalance == 0 && r.tokenUtxos == utxos)
  {
    if tokenId.None? {
      NoTokenIdHasZeroTokenBalance(utxos);
    }
  }
}

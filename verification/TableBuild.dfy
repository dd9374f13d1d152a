/** `initIndex` (`posting/index.go`): token tables from the keys of a store, in the order in which its iterator gives them. */
module TableBuild {
  import opened Bytes
  import opened Keys
  import opened TokensTables
  import opened OrderedStore

  /** The pairs of a store in key order. */
  ghost predicate KeyOrder(kvs: Kvs, data: map<bytes, bytes>) {
    SortedKvs(kvs) && forall k :: Lookup(kvs, k) == if k in data then Some(data[k]) else None
  }

  method InKeyOrder(data: map<bytes, bytes>) returns (kvs: Kvs)
    ensures KeyOrder(kvs, data)
  {
    hide LexLess, SortedKvs, Put;
    kvs := [];
    EmptySorted();
    var keys := data.Keys;
    while keys != {}
      invariant keys <= data.Keys && SortedKvs(kvs)
      invariant forall k :: Lookup(kvs, k) == if k in data && k !in keys then Some(data[k]) else None
      decreases |keys|
    {
      var k :| k in keys;
      keys := keys - {k};
      PutLaw(kvs, k, data[k], []);
      kvs := Put(kvs, k, data[k]);
    }
  }

  lemma EmptySorted()
    ensures SortedKvs([])
  {
  }

  /** Tokens and the keys they were read from. */
  ghost predicate ReadFrom(attr: bytes, tokens: seq<bytes>, done: Kvs) {
    |tokens| == |done| && forall i :: 0 <= i < |done| ==> done[i].key == IndexKey(attr, tokens[i])
  }

  lemma PrefixToken(attr: bytes, k: bytes)
    requires PlainAttr(attr) && HasPrefix(k, IndexKey(attr, []))
    ensures TokenFromKey(k).Some? && k == IndexKey(attr, TokenFromKey(k).value)
  {
    hide TokenFromKey;
    assert k == k[..|attr| + 1] + k[|attr| + 1..];
    assert k == IndexKey(attr, k[|attr| + 1..]);
    TokenRoundTrip(attr, k[|attr| + 1..]);
  }

  /** Below one attribute, keys order as their tokens do. */
  lemma TokenOrder(attr: bytes, s: bytes, t: bytes)
    ensures LexLess(IndexKey(attr, s), IndexKey(attr, t)) <==> LexLess(s, t)
    ensures HasPrefix(IndexKey(attr, s), IndexKey(attr, []))
    ensures !LexLess(IndexKey(attr, s), IndexKey(attr, []))
  {
    LexPrefix(attr + [COLON], s, t);
    LexPrefix(attr + [COLON], s, []);
    assert attr + [COLON] + [] == attr + [COLON];
  }

  /** The next key of the iterator has the largest token so far. */
  lemma NextAbove(attr: bytes, tokens: seq<bytes>, done: Kvs, kvs: Kvs, itr: nat, token: bytes)
    requires SortedKvs(kvs) && itr < |kvs| && kvs[itr].key == IndexKey(attr, token)
    requires ReadFrom(attr, tokens, done) && forall kv :: kv in done ==> kv in kvs[..itr]
    ensures forall t :: t in tokens ==> LexLess(t, token)
  {
    hide LexLess, IndexKey;
    forall t | t in tokens ensures LexLess(t, token) {
      var i :| 0 <= i < |tokens| && tokens[i] == t;
      assert done[i] in done;
      var j :| 0 <= j < itr && kvs[j] == done[i];
      TokenOrder(attr, t, token);
    }
  }

  /** The table holds exactly the tokens of the attribute's index keys. */
  lemma TableExact(attr: bytes, tokens: seq<bytes>, kvs: Kvs, data: map<bytes, bytes>, t: bytes)
    requires KeyOrder(kvs, data) && ReadFrom(attr, tokens, Scan(kvs, IndexKey(attr, []), IndexKey(attr, [])))
    ensures t in tokens <==> IndexKey(attr, t) in data
  {
    hide LexLess, SortedKvs, Scan, Lookup;
    var p, k := IndexKey(attr, []), IndexKey(attr, t);
    var scan := Scan(kvs, p, p);
    TokenOrder(attr, t, t);
    if t in tokens {
      var i :| 0 <= i < |tokens| && tokens[i] == t;
      assert scan[i] in scan;
      ScanExact(kvs, p, p, scan[i]);
      LookupMember(kvs, k, scan[i].val);
    }
    if k in data {
      LookupMember(kvs, k, data[k]);
      ScanExact(kvs, p, p, KV(k, data[k]));
      var i :| 0 <= i < |scan| && scan[i] == KV(k, data[k]);
      assert IndexKey(attr, tokens[i])[|attr| + 1..] == tokens[i] && k[|attr| + 1..] == t;
    }
  }

  /** One attribute of `initIndex`: seeks the prefix, and pushes the token of every key that has it. */
  method BuildTable(data: map<bytes, bytes>, attr: bytes) returns (table: TokensTable)
    requires PlainAttr(attr)
    ensures fresh(table) && SortedTokens(table.key)
    ensures forall t :: t in table.key <==> IndexKey(attr, t) in data
  {
    hide LexLess, SortedKvs, HasPrefix, IndexKey, SortedTokens, TokenFromKey, PlainAttr, Lookup;
    var kvs := InKeyOrder(data);
    table := new TokensTable();
    NoTokensSorted();
    var prefix := IndexKey(attr, []);
    var itr: nat := SeekPos(kvs, prefix);
    ghost var done: Kvs := [];
    while itr < |kvs| && HasPrefix(kvs[itr].key, prefix)
      invariant itr <= |kvs| && fresh(table) && SortedTokens(table.key)
      invariant Scan(kvs, prefix, prefix) == done + ScanAt(kvs, itr, prefix)
      invariant ReadFrom(attr, table.key, done) && forall kv :: kv in done ==> kv in kvs[..itr]
    {
      PrefixToken(attr, kvs[itr].key);
      var token := TokenFromKey(kvs[itr].key).value;
      NextAbove(attr, table.key, done, kvs, itr, token);
      table.Push(token);
      assert ScanAt(kvs, itr, prefix) == [kvs[itr]] + ScanAt(kvs, itr + 1, prefix);
      done := done + [kvs[itr]];
      itr := itr + 1;
    }
    assert done + [] == done;
    forall t ensures t in table.key <==> IndexKey(attr, t) in data { TableExact(attr, table.key, kvs, data, t); }
  }

  lemma NoTokensSorted()
    ensures SortedTokens([])
  {
  }
}

/** The skeleton that every log of the subsystem shares: each record stores the previous
    record's hash and the hash of that value followed by its own fixed-width fields. */
module HashChain {
  import opened Wrappers
  import opened Bytes

  /** What a record contributes to its chain. `body` is the encoding of its own fields. */
  datatype Link = Link(prev: Digest, body: ByteString, hash: Digest)

  function Preimage(l: Link): ByteString {
    l.prev + l.body
  }

  /** The link value that follows `links` when the chain starts from `start`. */
  function Tip(start: Digest, links: seq<Link>): Digest {
    if links == [] then start else links[|links| - 1].hash
  }

  /** Link `i` continues the chain from `start` and carries its own hash. */
  predicate LinkHolds(sha: Hash, start: Digest, links: seq<Link>, i: nat)
    requires i < |links|
  {
    && links[i].prev == Tip(start, links[..i])
    && links[i].hash == sha(Preimage(links[i]))
  }

  predicate Linked(sha: Hash, start: Digest, links: seq<Link>) {
    forall i :: 0 <= i < |links| ==> LinkHolds(sha, start, links, i)
  }

  /** `l` is what a log appends after `links`: it continues the chain from genesis and carries
      its own hash. */
  predicate Continues(sha: Hash, links: seq<Link>, l: Link) {
    l.prev == Tip(Genesis(), links) && l.hash == sha(Preimage(l))
  }

  lemma LinkedPrefix(sha: Hash, start: Digest, links: seq<Link>, n: nat)
    requires n <= |links| && Linked(sha, start, links)
    ensures Linked(sha, start, links[..n])
  {
    forall i | 0 <= i < n
      ensures LinkHolds(sha, start, links[..n], i)
    {
      assert LinkHolds(sha, start, links, i);
      assert links[..n][..i] == links[..i];
    }
  }

  lemma LinkedGrows(sha: Hash, start: Digest, links: seq<Link>, l: Link)
    ensures Linked(sha, start, links + [l]) <==>
      Linked(sha, start, links) && l.prev == Tip(start, links) && l.hash == sha(Preimage(l))
  {
    var all := links + [l];
    assert all[..|links|] == links;
    if Linked(sha, start, all) {
      LinkedPrefix(sha, start, all, |links|);
      assert LinkHolds(sha, start, all, |links|);
    }
    if Linked(sha, start, links) && l.prev == Tip(start, links) && l.hash == sha(Preimage(l)) {
      forall i | 0 <= i < |all|
        ensures LinkHolds(sha, start, all, i)
      {
        if i < |links| {
          assert LinkHolds(sha, start, links, i);
          assert all[..i] == links[..i];
        }
      }
    }
  }

  /** Segmented verification: a chain is two adjoining windows, the second one started from
      the tip of the first. */
  lemma LinkedConcat(sha: Hash, start: Digest, a: seq<Link>, b: seq<Link>)
    ensures Linked(sha, start, a + b) <==> Linked(sha, start, a) && Linked(sha, Tip(start, a), b)
  {
    var all := a + b;
    if Linked(sha, start, all) {
      LinkedPrefix(sha, start, all, |a|);
      assert all[..|a|] == a;
      forall i | 0 <= i < |b|
        ensures LinkHolds(sha, Tip(start, a), b, i)
      {
        assert LinkHolds(sha, start, all, |a| + i);
        assert all[..|a| + i] == a + b[..i];
      }
    }
    if Linked(sha, start, a) && Linked(sha, Tip(start, a), b) {
      forall i | 0 <= i < |all|
        ensures LinkHolds(sha, start, all, i)
      {
        if i < |a| {
          assert LinkHolds(sha, start, a, i);
          assert all[..i] == a[..i];
        } else {
          assert LinkHolds(sha, Tip(start, a), b, i - |a|);
          assert all[..i] == a + b[..i - |a|];
        }
      }
    }
  }

  /** A chain that starts anywhere is one that starts from its own first link. */
  lemma LinkedFromFirst(sha: Hash, start: Digest, links: seq<Link>)
    requires links != []
    ensures Linked(sha, start, links) <==> Linked(sha, links[0].prev, links) && links[0].prev == start
  {
    if Linked(sha, start, links) {
      assert LinkHolds(sha, start, links, 0);
    }
  }

  /** Somewhere the two sequences hold, at the same distance from their ends, two different
      preimages with one hash. */
  ghost predicate CollisionBetween(sha: Hash, a: seq<Link>, b: seq<Link>) {
    exists k :: 1 <= k <= |a| && k <= |b| && CollisionAt(sha, a, b, k)
  }

  predicate CollisionAt(sha: Hash, a: seq<Link>, b: seq<Link>, k: nat)
    requires 1 <= k <= |a| && k <= |b|
  {
    Collision(sha, Preimage(a[|a| - k]), Preimage(b[|b| - k]))
  }

  /** Last links with one hash are equal or collide. */
  lemma SameHashSameLink(sha: Hash, x: Link, y: Link)
    requires x.hash == sha(Preimage(x)) && y.hash == sha(Preimage(y)) && x.hash == y.hash
    ensures x == y || Collision(sha, Preimage(x), Preimage(y))
  {
    if Preimage(x) == Preimage(y) {
      SplitEqual(x.prev, y.prev, x.body, y.body);
    }
  }

  lemma CollisionOfFronts(sha: Hash, a: seq<Link>, x: Link, b: seq<Link>, y: Link)
    requires CollisionBetween(sha, a, b)
    ensures CollisionBetween(sha, a + [x], b + [y])
  {
    var k :| 1 <= k <= |a| && k <= |b| && CollisionAt(sha, a, b, k);
    assert CollisionAt(sha, a + [x], b + [y], k + 1);
  }

  /** Two chains of the same length with the same tip are the same chain, starting link
      included, or they contain an explicit collision. */
  lemma {:induction false} SameTipSameChain(sha: Hash, s: Digest, a: seq<Link>, t: Digest, b: seq<Link>)
    requires Linked(sha, s, a) && Linked(sha, t, b)
    requires |a| == |b| && Tip(s, a) == Tip(t, b)
    ensures (a == b && s == t) || CollisionBetween(sha, a, b)
  {
    var n := |a|;
    if n > 0 {
      var front, back := a[..n - 1], b[..n - 1];
      var x, y := a[n - 1], b[n - 1];
      assert a == front + [x] && b == back + [y];
      LinkedGrows(sha, s, front, x);
      LinkedGrows(sha, t, back, y);
      SameHashSameLink(sha, x, y);
      if x == y {
        SameTipSameChain(sha, s, front, t, back);
        if CollisionBetween(sha, front, back) {
          CollisionOfFronts(sha, front, x, back, y);
        }
      } else {
        assert CollisionAt(sha, a, b, 1);
      }
    }
  }

  /** A link whose hash is the starting value. */
  predicate HashesTo(sha: Hash, links: seq<Link>, value: Digest) {
    exists i :: 0 <= i < |links| && sha(Preimage(links[i])) == value
  }

  /** Chains from the same start with the same tip but of any lengths: the same chain, an
      explicit collision, or an explicit preimage of the starting value. */
  lemma SameTip(sha: Hash, start: Digest, a: seq<Link>, b: seq<Link>)
    requires Linked(sha, start, a) && Linked(sha, start, b) && Tip(start, a) == Tip(start, b)
    ensures a == b || CollisionBetween(sha, a, b) || HashesTo(sha, a + b, start)
  {
    if |a| <= |b| {
      SameTipOrdered(sha, start, a, b);
    } else {
      SameTipOrdered(sha, start, b, a);
      if CollisionBetween(sha, b, a) {
        var k :| 1 <= k <= |a| && k <= |b| && CollisionAt(sha, b, a, k);
        assert CollisionAt(sha, a, b, k);
      }
      HashesToGrows(sha, a, b, start);
    }
  }

  lemma SameTipOrdered(sha: Hash, start: Digest, a: seq<Link>, b: seq<Link>)
    requires Linked(sha, start, a) && Linked(sha, start, b) && Tip(start, a) == Tip(start, b)
    requires |a| <= |b|
    ensures a == b || CollisionBetween(sha, a, b) || HashesTo(sha, b, start)
    ensures HashesTo(sha, b, start) ==> HashesTo(sha, a + b, start)
  {
    var n := |b| - |a|;
    var head, tail := b[..n], b[n..];
    assert b == head + tail;
    LinkedConcat(sha, start, head, tail);
    SameTipSameChain(sha, start, a, Tip(start, head), tail);
    if CollisionBetween(sha, a, tail) {
      var k :| 1 <= k <= |a| && k <= |tail| && CollisionAt(sha, a, tail, k);
      assert CollisionAt(sha, a, b, k);
    } else if n > 0 {
      assert LinkHolds(sha, start, b, n - 1);
      assert sha(Preimage(b[n - 1])) == start;
    }
    HashesToGrows(sha, a, b, start);
  }

  lemma HashesToGrows(sha: Hash, a: seq<Link>, b: seq<Link>, value: Digest)
    ensures HashesTo(sha, a, value) || HashesTo(sha, b, value) ==> HashesTo(sha, a + b, value)
  {
    if i :| 0 <= i < |a| && sha(Preimage(a[i])) == value {
      assert (a + b)[i] == a[i];
    } else if i :| 0 <= i < |b| && sha(Preimage(b[i])) == value {
      assert (a + b)[|a| + i] == b[i];
    }
  }

  // ---------------------------------------------------------------- logs

  /** A log record: its own fields, the hash over them, and the hash of the record before. */
  datatype Chained<+T> = Chained(content: T, hash: Digest, prevHash: Digest)

  function LinkOf<T>(body: T -> ByteString, r: Chained<T>): Link {
    Link(r.prevHash, body(r.content), r.hash)
  }

  function LinksOf<T>(body: T -> ByteString, rs: seq<Chained<T>>): (ls: seq<Link>)
    ensures |ls| == |rs|
  {
    seq(|rs|, i requires 0 <= i < |rs| => LinkOf(body, rs[i]))
  }

  function LastHash<T>(rs: seq<Chained<T>>): Digest {
    if rs == [] then Genesis() else rs[|rs| - 1].hash
  }

  /** What a log appends for `t`. */
  function Next<T>(sha: Hash, body: T -> ByteString, rs: seq<Chained<T>>, t: T): Chained<T> {
    Chained(t, sha(LastHash(rs) + body(t)), LastHash(rs))
  }

  /** What `verify_chain` of a log accepts. */
  predicate LogHolds<T>(sha: Hash, body: T -> ByteString, rs: seq<Chained<T>>) {
    Linked(sha, Genesis(), LinksOf(body, rs))
  }

  /** An append keeps a log exactly as intact as it was. */
  lemma LogGrows<T>(sha: Hash, body: T -> ByteString, rs: seq<Chained<T>>, t: T)
    ensures LogHolds(sha, body, rs + [Next(sha, body, rs, t)]) <==> LogHolds(sha, body, rs)
  {
    var r := Next(sha, body, rs, t);
    LinkedGrows(sha, Genesis(), LinksOf(body, rs), LinkOf(body, r));
    assert LinksOf(body, rs + [r]) == LinksOf(body, rs) + [LinkOf(body, r)];
  }

  /** The hash of the log of the first `n` contents. */
  function HashAfter<T>(sha: Hash, body: T -> ByteString, ts: seq<T>, n: nat): Digest
    requires n <= |ts|
  {
    if n == 0 then Genesis() else sha(HashAfter(sha, body, ts, n - 1) + body(ts[n - 1]))
  }

  /** The log that holds the given contents, appended in order. */
  function ChainOf<T>(sha: Hash, body: T -> ByteString, ts: seq<T>): (rs: seq<Chained<T>>)
    ensures |rs| == |ts|
  {
    seq(|ts|, i requires 0 <= i < |ts| =>
      Chained(ts[i], HashAfter(sha, body, ts, i + 1), HashAfter(sha, body, ts, i)))
  }

  lemma {:induction false} HashAfterPrefix<T>(sha: Hash, body: T -> ByteString, a: seq<T>, b: seq<T>, n: nat)
    requires n <= |a| && n <= |b| && a[..n] == b[..n]
    ensures HashAfter(sha, body, a, n) == HashAfter(sha, body, b, n)
  {
    if n > 0 {
      assert a[..n - 1] == a[..n][..n - 1] && b[..n - 1] == b[..n][..n - 1];
      assert a[n - 1] == a[..n][n - 1] && b[n - 1] == b[..n][n - 1];
      HashAfterPrefix(sha, body, a, b, n - 1);
    }
  }

  /** The first records of a log are the log of the first contents. */
  lemma ChainOfPrefix<T>(sha: Hash, body: T -> ByteString, ts: seq<T>, n: nat)
    requires n <= |ts|
    ensures ChainOf(sha, body, ts)[..n] == ChainOf(sha, body, ts[..n])
  {
    forall i | 0 <= i <= n
      ensures HashAfter(sha, body, ts, i) == HashAfter(sha, body, ts[..n], i)
    {
      HashAfterPrefix(sha, body, ts, ts[..n], i);
    }
  }

  lemma LastHashOfChain<T>(sha: Hash, body: T -> ByteString, ts: seq<T>)
    ensures LastHash(ChainOf(sha, body, ts)) == HashAfter(sha, body, ts, |ts|)
  {
  }

  lemma ChainGrows<T>(sha: Hash, body: T -> ByteString, ts: seq<T>, t: T)
    ensures ChainOf(sha, body, ts + [t]) == ChainOf(sha, body, ts) + [Next(sha, body, ChainOf(sha, body, ts), t)]
  {
    var ts', n := ts + [t], |ts|;
    var all := ChainOf(sha, body, ts');
    ChainOfPrefix(sha, body, ts', n);
    assert ts'[..n] == ts;
    HashAfterPrefix(sha, body, ts', ts, n);
    LastHashOfChain(sha, body, ts);
    assert all[n] == Next(sha, body, ChainOf(sha, body, ts), t);
    assert all == all[..n] + [all[n]];
  }

  /** Such a log verifies and holds what was appended. */
  lemma {:induction false} ChainOfHolds<T>(sha: Hash, body: T -> ByteString, ts: seq<T>)
    ensures LogHolds(sha, body, ChainOf(sha, body, ts))
  {
    if ts == [] {
    } else {
      var front, t := ts[..|ts| - 1], ts[|ts| - 1];
      ChainOfHolds(sha, body, front);
      LogGrows(sha, body, ChainOf(sha, body, front), t);
      ChainGrows(sha, body, front, t);
      assert ts == front + [t];
    }
  }

  /** Equal last hashes of two logs of one length mean equal encodings throughout, or an
      explicit collision. */
  lemma ChainOfBinds<T>(sha: Hash, body: T -> ByteString, a: seq<T>, b: seq<T>)
    requires |a| == |b| && LastHash(ChainOf(sha, body, a)) == LastHash(ChainOf(sha, body, b))
    ensures var x, y := ChainOf(sha, body, a), ChainOf(sha, body, b);
      (forall i :: 0 <= i < |a| ==> body(a[i]) == body(b[i]))
      || CollisionBetween(sha, LinksOf(body, x), LinksOf(body, y))
  {
    var x, y := ChainOf(sha, body, a), ChainOf(sha, body, b);
    ChainOfHolds(sha, body, a);
    ChainOfHolds(sha, body, b);
    SameTipSameChain(sha, Genesis(), LinksOf(body, x), Genesis(), LinksOf(body, y));
    if LinksOf(body, x) == LinksOf(body, y) {
      forall i | 0 <= i < |a|
        ensures body(a[i]) == body(b[i])
      {
        assert LinksOf(body, x)[i] == LinksOf(body, y)[i];
      }
    }
  }

  ghost predicate SameBodies<T(!new)>(body: T -> ByteString, a: seq<Chained<T>>, b: seq<Chained<T>>) {
    |a| == |b| && forall i :: 0 <= i < |a| ==> body(a[i].content) == body(b[i].content)
  }

  /** Equal last hashes of two intact logs of any lengths mean equal encodings throughout, an
      explicit collision, or an explicit preimage of the genesis value. */
  lemma LastHashBinds<T(!new)>(sha: Hash, body: T -> ByteString, a: seq<Chained<T>>, b: seq<Chained<T>>)
    requires LogHolds(sha, body, a) && LogHolds(sha, body, b) && LastHash(a) == LastHash(b)
    ensures SameBodies(body, a, b)
            || CollisionBetween(sha, LinksOf(body, a), LinksOf(body, b))
            || HashesTo(sha, LinksOf(body, a) + LinksOf(body, b), Genesis())
  {
    var x, y := LinksOf(body, a), LinksOf(body, b);
    SameTip(sha, Genesis(), x, y);
    if x == y {
      assert |x| == |y|;
      forall i | 0 <= i < |a|
        ensures body(a[i].content) == body(b[i].content)
      {
        assert x[i] == y[i];
      }
    }
  }

  /** The encoding tells apart any two contents with the property `good`. */
  ghost predicate TellsApart<T(!new)>(body: T -> ByteString, good: T -> bool) {
    forall s, t :: good(s) && good(t) && body(s) == body(t) ==> s == t
  }

  ghost predicate AllGood<T>(good: T -> bool, rs: seq<Chained<T>>) {
    forall i :: 0 <= i < |rs| ==> good(rs[i].content)
  }

  lemma SameLinkSameRecord<T(!new)>(body: T -> ByteString, good: T -> bool, r: Chained<T>, s: Chained<T>)
    requires TellsApart(body, good) && good(r.content) && good(s.content) && LinkOf(body, r) == LinkOf(body, s)
    ensures r == s
  {
  }

  /** Equal last hashes of two intact logs of such contents, of any lengths, mean the same log,
      an explicit collision, or an explicit preimage of the genesis value. */
  lemma LastHashBindsLog<T(!new)>(sha: Hash, body: T -> ByteString, good: T -> bool,
                                  a: seq<Chained<T>>, b: seq<Chained<T>>)
    requires TellsApart(body, good) && AllGood(good, a) && AllGood(good, b)
    requires LogHolds(sha, body, a) && LogHolds(sha, body, b) && LastHash(a) == LastHash(b)
    ensures a == b
            || CollisionBetween(sha, LinksOf(body, a), LinksOf(body, b))
            || HashesTo(sha, LinksOf(body, a) + LinksOf(body, b), Genesis())
  {
    var x, y := LinksOf(body, a), LinksOf(body, b);
    SameTip(sha, Genesis(), x, y);
    if x == y {
      assert |x| == |y|;
      forall i | 0 <= i < |a|
        ensures a[i] == b[i]
      {
        assert x[i] == y[i];
        SameLinkSameRecord(body, good, a[i], b[i]);
      }
    }
  }

  /** What the last hash of a log says about its contents. */
  ghost predicate Binds<T(!new)>(sha: Hash, body: T -> ByteString, xs: seq<T>, ys: seq<T>) {
    var a, b := ChainOf(sha, body, xs), ChainOf(sha, body, ys);
    LastHash(a) == LastHash(b) ==>
      || xs == ys
      || CollisionBetween(sha, LinksOf(body, a), LinksOf(body, b))
      || HashesTo(sha, LinksOf(body, a) + LinksOf(body, b), Genesis())
  }

  lemma ContentsAreBound<T(!new)>(sha: Hash, body: T -> ByteString, good: T -> bool, xs: seq<T>, ys: seq<T>)
    requires TellsApart(body, good)
    requires (forall i :: 0 <= i < |xs| ==> good(xs[i])) && (forall i :: 0 <= i < |ys| ==> good(ys[i]))
    ensures Binds(sha, body, xs, ys)
  {
    var a, b := ChainOf(sha, body, xs), ChainOf(sha, body, ys);
    ChainOfHolds(sha, body, xs);
    ChainOfHolds(sha, body, ys);
    if LastHash(a) == LastHash(b) {
      LastHashBindsLog(sha, body, good, a, b);
      if a == b {
        assert |xs| == |a| == |ys|;
        assert forall i :: 0 <= i < |xs| ==> xs[i] == a[i].content == b[i].content == ys[i];
      }
    }
  }

  // ---------------------------------------------------------------- verification

  /** The index of the first broken link, as the source's `verify_chain` reports it. */
  predicate FirstBroken(sha: Hash, start: Digest, links: seq<Link>, i: nat) {
    i < |links| && Linked(sha, start, links[..i]) && !LinkHolds(sha, start, links, i)
  }

  /** The verification loop shared by all logs. */
  method VerifyLinks(sha: Hash, start: Digest, links: seq<Link>) returns (valid: bool, broken: Option<nat>)
    ensures valid <==> Linked(sha, start, links)
    ensures valid ==> broken == None
    ensures !valid ==> broken.Some? && FirstBroken(sha, start, links, broken.value)
  {
    var prev := start;
    for i := 0 to |links|
      invariant prev == Tip(start, links[..i])
      invariant Linked(sha, start, links[..i])
    {
      if links[i].prev != prev || links[i].hash != sha(Preimage(links[i])) {
        assert !LinkHolds(sha, start, links, i);
        return false, Some(i);
      }
      LinkedGrows(sha, start, links[..i], links[i]);
      assert links[..i + 1] == links[..i] + [links[i]];
      prev := links[i].hash;
    }
    assert links[..|links|] == links;
    return true, None;
  }

  /** `verify_chain` of a log: accepts exactly the intact logs, altered ones included, and names
      the first broken record. */
  method VerifyLog<T>(sha: Hash, body: T -> ByteString, rs: seq<Chained<T>>) returns (valid: bool, broken: Option<nat>)
    ensures valid <==> LogHolds(sha, body, rs)
    ensures valid ==> broken == None
    ensures !valid ==> broken.Some? && FirstBroken(sha, Genesis(), LinksOf(body, rs), broken.value)
  {
    valid, broken := VerifyLinks(sha, Genesis(), LinksOf(body, rs));
  }
}

/**
 The forwarding rule that matches a connection by its address, or by any address its name was
 resolved to.
 */
module CidrRule {
  import opened Bytes
  import opened AddressBlock

  type Short = b: Bits | |b| == 32 witness seq(32, i => false)
  type Long = b: Bits | |b| == 128 witness seq(128, i => false)

  datatype Endpoint = V4(short: Short) | V6(long: Long) | Named

  /** A rule's text is a block of one family, or nothing that parses. */
  datatype Block = Block4(short: Short, prefix: nat) | Block6(long: Long, prefix: nat) | NoBlock {
    predicate Valid() {
      (Block4? ==> prefix <= 32) && (Block6? ==> prefix <= 128)
    }
  }

  predicate Evaluate(block: Block, e: Endpoint) {
    match e
    case V4(a) => block.Block4? && Contains(block.short, block.prefix, a)
    case V6(a) => block.Block6? && Contains(block.long, block.prefix, a)
    case Named => false
  }

  function Flatten<T>(groups: seq<seq<T>>): (r: seq<T>) {
    if groups == [] then [] else groups[0] + Flatten(groups[1..])
  }

  predicate Matches(block: Block, request: Option<Endpoint>, resolutions: Option<seq<seq<Endpoint>>>) {
    match request
    case None => false
    case Some(address) =>
      Evaluate(block, address) ||
      (resolutions.Some? && exists i :: 0 <= i < |Flatten(resolutions.value)| && Evaluate(block, Flatten(resolutions.value)[i]))
  }

  /** An endpoint lies in a block: same family, same leading bits. */
  predicate SharesPrefix(block: Block, e: Endpoint)
    requires block.Valid()
  {
    match e
    case V4(a) => block.Block4? && a[..block.prefix] == block.short[..block.prefix]
    case V6(a) => block.Block6? && a[..block.prefix] == block.long[..block.prefix]
    case Named => false
  }

  lemma {:induction false} EvaluateExactly(block: Block, e: Endpoint)
    requires block.Valid()
    ensures Evaluate(block, e) <==> SharesPrefix(block, e)
  {
    match e
    case V4(a) => if block.Block4? { ContainsExactly(block.short, block.prefix, a); }
    case V6(a) => if block.Block6? { ContainsExactly(block.long, block.prefix, a); }
    case Named =>
  }

  /** A block whose prefix is a whole address holds that address and no other. */
  lemma {:induction false} HostBlocks(short: Short, long: Long, e: Endpoint)
    ensures Block4(short, 32).Valid() && Block6(long, 128).Valid()
    ensures Evaluate(Block4(short, 32), e) <==> e == V4(short)
    ensures Evaluate(Block6(long, 128), e) <==> e == V6(long)
  {
    EvaluateExactly(Block4(short, 32), e);
    EvaluateExactly(Block6(long, 128), e);
    match e
    case V4(a) => assert a[..32] == a && short[..32] == short;
    case V6(a) => assert a[..128] == a && long[..128] == long;
    case Named =>
  }

  lemma {:induction false} FlattenHolds<T>(groups: seq<seq<T>>, x: T)
    ensures x in Flatten(groups) <==> exists i :: 0 <= i < |groups| && x in groups[i]
  {
    if groups != [] {
      FlattenHolds(groups[1..], x);
      if i :| 0 <= i < |groups| && x in groups[i] {
        assert i > 0 ==> x in groups[1..][i - 1];
      }
      if i :| 0 <= i < |groups[1..]| && x in groups[1..][i] {
        assert x in groups[i + 1];
      }
    }
  }

  /** A connection matches exactly when it has an address, and that or one it was resolved to shares
      the block's prefix. */
  lemma {:induction false} MatchesExactly(block: Block, request: Option<Endpoint>, resolutions: Option<seq<seq<Endpoint>>>)
    requires block.Valid()
    ensures Matches(block, request, resolutions) <==>
              request.Some? &&
              (SharesPrefix(block, request.value) ||
               (resolutions.Some? && exists i, j :: 0 <= i < |resolutions.value| && 0 <= j < |resolutions.value[i]| &&
                                                    SharesPrefix(block, resolutions.value[i][j])))
  {
    if request.Some? {
      EvaluateExactly(block, request.value);
    }
    if resolutions.Some? {
      var groups := resolutions.value;
      var all := Flatten(groups);
      if i :| 0 <= i < |all| && Evaluate(block, all[i]) {
        FlattenHolds(groups, all[i]);
        EvaluateExactly(block, all[i]);
        var g :| 0 <= g < |groups| && all[i] in groups[g];
        var j :| 0 <= j < |groups[g]| && groups[g][j] == all[i];
        assert SharesPrefix(block, groups[g][j]);
      }
      if i, j :| 0 <= i < |groups| && 0 <= j < |groups[i]| && SharesPrefix(block, groups[i][j]) {
        var e := groups[i][j];
        EvaluateExactly(block, e);
        assert e in groups[i];
        FlattenHolds(groups, e);
        var k :| 0 <= k < |all| && all[k] == e;
        assert Evaluate(block, all[k]);
      }
    }
  }
}

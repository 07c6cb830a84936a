/** How a model's weights and KV cache are split over the cards of one installation.

    Weights in equal parts, the cache by whole heads. */
module TensorParallel {
  import opened Arithmetic
  import opened Options

  type Pos = n: int | n > 0 witness 1

  datatype Heads = Heads(attention: Option<Pos>, kv: Option<Pos>, mla: bool)

  /** The part of the whole cache one card holds, or none where the heads do not divide. */
  function KvCacheSharePerCard(heads: Heads, ranks: Pos): Option<real> {
    if ranks == 1 then Some(1.0)
    else if heads.attention.None? || heads.kv.None? || heads.attention.value % ranks != 0 then None
    else if heads.mla then Some(1.0)
    else
      var kv := heads.kv.value;
      if ranks < kv then (if kv % ranks == 0 then Some(1.0 / ranks as real) else None)
      else if ranks % kv == 0 then Some(1.0 / kv as real)
      else None
  }

  datatype Layout = Layout(tensorParallelSize: Pos, perCardWeightGb: real, perCardKvCacheGb: real)

  function TensorParallelLayout(weightGb: real, heads: Heads, ranks: Pos, kvCacheGb: real): Option<Layout> {
    match KvCacheSharePerCard(heads, ranks)
    case None => None
    case Some(share) => Some(Layout(ranks, weightGb / ranks as real, kvCacheGb * share))
  }

  /** Whole KV heads a card stores of kv in all: an equal part of them, or a copy of one. */
  ghost predicate HeadsOnCard(kv: Pos, ranks: Pos, onCard: Pos) {
    (onCard * ranks == kv) || (onCard == 1 && exists copies: Pos :: copies * kv == ranks)
  }

  lemma DividesExactly(a: Pos, b: Pos)
    requires a % b == 0
    ensures a / b > 0 && (a / b) * b == a
  {
    assert a == b * (a / b) + a % b;
    assert b * (a / b) == (a / b) * b;
  }

  lemma ShareOfHeads(kv: Pos, ranks: Pos, onCard: Pos)
    requires onCard * ranks == kv
    ensures 1.0 / ranks as real == onCard as real / kv as real
  {
    assert onCard as real * ranks as real == (onCard * ranks) as real;
  }

  /** On several cards the share is that of the whole KV heads each card holds, or everything for latent attention. */
  lemma ShareIsWholeHeads(heads: Heads, ranks: Pos) returns (onCard: Pos)
    requires ranks > 1 && KvCacheSharePerCard(heads, ranks).Some? && !heads.mla
    ensures heads.kv.Some? && heads.attention.Some? && heads.attention.value % ranks == 0
    ensures HeadsOnCard(heads.kv.value, ranks, onCard)
    ensures KvCacheSharePerCard(heads, ranks) == Some(onCard as real / heads.kv.value as real)
  {
    var kv := heads.kv.value;
    if ranks < kv {
      DividesExactly(kv, ranks);
      onCard := kv / ranks;
      ShareOfHeads(kv, ranks, onCard);
    } else {
      DividesExactly(ranks, kv);
      onCard := 1;
      var copies: Pos := ranks / kv;
      assert copies * kv == ranks;
    }
  }

  ghost predicate Divides(part: Pos, whole: Pos) { exists times: Pos :: times * part == whole }

  lemma {:induction false} NoRemainder(times: int, part: Pos, quotient: int, rest: int)
    requires times * part == part * quotient + rest && 0 <= rest < part
    ensures rest == 0
  {
    assert (times - quotient) * part == rest;
    WholeMultiple(times - quotient, part);
  }

  lemma {:induction false} DividesIff(part: Pos, whole: Pos)
    ensures Divides(part, whole) <==> whole % part == 0
  {
    if whole % part == 0 {
      DividesExactly(whole, part);
      var times: Pos := whole / part;
      assert times * part == whole;
    } else if Divides(part, whole) {
      var times: Pos :| times * part == whole;
      NoRemainder(times, part, whole / part, whole % part);
      assert false;
    }
  }

  /** A model runs on several cards exactly if its attention heads divide over them and, unless its attention is
      latent, so do its KV heads or the cards over the KV heads. With latent attention, and on one card, a card
      holds the whole cache. */
  lemma {:induction false} RunsIffHeadsDivide(heads: Heads, ranks: Pos)
    ensures KvCacheSharePerCard(heads, ranks).Some? <==>
      || ranks == 1
      || (&& heads.attention.Some? && heads.kv.Some? && Divides(ranks, heads.attention.value)
          && (heads.mla || Divides(ranks, heads.kv.value) || Divides(heads.kv.value, ranks)))
    ensures KvCacheSharePerCard(heads, ranks).Some? && (ranks == 1 || heads.mla)
      ==> KvCacheSharePerCard(heads, ranks) == Some(1.0)
  {
    if heads.attention.Some? && heads.kv.Some? {
      DividesIff(ranks, heads.attention.value);
      DividesIff(ranks, heads.kv.value);
      DividesIff(heads.kv.value, ranks);
    }
  }

  /** Over all cards the shares hold the whole cache at least once; each card holds at most all of it. */
  lemma SharesCoverCache(heads: Heads, ranks: Pos)
    requires KvCacheSharePerCard(heads, ranks).Some?
    ensures var share := KvCacheSharePerCard(heads, ranks).value;
      0.0 < share <= 1.0 <= ranks as real * share
  {
    if ranks > 1 && !heads.mla && ranks >= heads.kv.value {
      Ratio(ranks as real, heads.kv.value as real);
    }
  }

  lemma Ratio(a: real, b: real)
    requires a >= b > 0.0
    ensures a * (1.0 / b) >= 1.0
  {
    assert a * (1.0 / b) == a / b;
  }

  /** The cards together hold all weights once and the cache at least once. */
  lemma LayoutHoldsModel(weightGb: real, heads: Heads, ranks: Pos, kvCacheGb: real)
    requires kvCacheGb >= 0.0 && TensorParallelLayout(weightGb, heads, ranks, kvCacheGb).Some?
    ensures var layout := TensorParallelLayout(weightGb, heads, ranks, kvCacheGb).value;
      ranks as real * layout.perCardWeightGb == weightGb && ranks as real * layout.perCardKvCacheGb >= kvCacheGb
  {
    SharesCoverCache(heads, ranks);
    var share, n := KvCacheSharePerCard(heads, ranks).value, ranks as real;
    assert n * (kvCacheGb * share) == kvCacheGb * (n * share);
    Scaled(kvCacheGb, n * share);
  }

  lemma Scaled(x: real, factor: real)
    requires x >= 0.0 && factor >= 1.0
    ensures x * factor >= x
  {
    assert x * (factor - 1.0) >= 0.0;
  }

  lemma {:induction false} HeadsOfCache(cache: real, share: real, onCard: real, kv: real, perCard: real)
    requires kv > 0.0 && share == onCard / kv && perCard == cache * share
    ensures perCard * kv == cache * onCard
  {
    assert share * kv == onCard;
    assert cache * share * kv == cache * (share * kv);
  }

  lemma {:induction false} EqualPart(whole: real, parts: real, part: real)
    requires parts > 0.0 && part == whole / parts
    ensures part * parts == whole
  {
  }

  /** A card holds an equal part of the weights and the cache of its whole KV heads, of all of them with latent
      attention and on a single card. */
  lemma {:induction false} LayoutSplits(weightGb: real, heads: Heads, ranks: Pos, kvCacheGb: real) returns (onCard: Pos)
    requires TensorParallelLayout(weightGb, heads, ranks, kvCacheGb).Some?
    ensures var layout := TensorParallelLayout(weightGb, heads, ranks, kvCacheGb).value;
      && layout.tensorParallelSize == ranks && layout.perCardWeightGb * ranks as real == weightGb
      && (ranks == 1 || heads.mla ==> layout.perCardKvCacheGb == kvCacheGb)
      && (ranks > 1 && !heads.mla
          ==> && heads.kv.Some? && HeadsOnCard(heads.kv.value, ranks, onCard)
              && layout.perCardKvCacheGb * heads.kv.value as real == kvCacheGb * onCard as real)
  {
    var layout := TensorParallelLayout(weightGb, heads, ranks, kvCacheGb).value;
    EqualPart(weightGb, ranks as real, layout.perCardWeightGb);
    onCard := 1;
    if ranks > 1 && !heads.mla {
      onCard := ShareIsWholeHeads(heads, ranks);
      var share := KvCacheSharePerCard(heads, ranks).value;
      HeadsOfCache(kvCacheGb, share, onCard as real, heads.kv.value as real, layout.perCardKvCacheGb);
    }
  }
}

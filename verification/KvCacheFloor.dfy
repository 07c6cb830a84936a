/** The smallest KV cache with which the engine still starts a request of full context length. */
module KvCacheFloor {
  import opened Options
  import opened TensorParallel

  const BYTES_PER_GB := 1000000000.0

  datatype Paging = Paging(
    standardBlockTokens: Pos,
    latentBlockTokens: Pos,
    alignStatePagesPerGroup: nat,
    groupSizeRatio: real)

  datatype Sizing = Sizing(
    kvBytesPerToken: Option<Pos>,
    stateBytesPerSequence: Option<Pos>,
    attentionLayers: Option<Pos>,
    stateLayers: Option<Pos>,
    heads: Heads,
    maxContextLength: Pos,
    attentionWindow: Option<Pos>)

  function Ceil(x: real): (n: int)
    ensures n as real - 1.0 < x <= n as real
  {
    -((-x).Floor)
  }

  /** The ceiling of a quotient of whole numbers: how many blocks of b hold a. */
  function CeilDiv(a: Pos, b: Pos): Pos {
    if a <= b then 1 else 1 + CeilDiv(a - b, b)
  }

  lemma {:induction false} CeilDivIsCeiling(a: Pos, b: Pos)
    ensures (CeilDiv(a, b) - 1) * b < a <= CeilDiv(a, b) * b
  {
    if a > b {
      CeilDivIsCeiling(a - b, b);
      var q := CeilDiv(a - b, b);
      assert q * b == (q - 1) * b + b && (q + 1) * b == q * b + b;
    }
  }

  function AttentionBytes(bytesPerToken: real, contextTokens: Pos, blockTokens: Pos): real {
    bytesPerToken * ((CeilDiv(contextTokens, blockTokens) + 1) * blockTokens) as real
  }

  function GroupSize(attentionLayers: Pos, stateLayers: Pos, ratio: real): Pos {
    var smaller, larger := if attentionLayers < stateLayers then attentionLayers else stateLayers,
      if attentionLayers < stateLayers then stateLayers else attentionLayers;
    if larger as real < ratio * smaller as real then larger else smaller
  }

  /** Tokens per page, grown until a page also covers one layer's state. */
  function CoveringTokens(tokenBytes: real, stateBytes: real, blockTokens: Pos): (tokens: Pos)
    requires tokenBytes > 0.0 && stateBytes > 0.0
  {
    BlockIsPositive(tokenBytes, stateBytes, blockTokens);
    blockTokens * Ceil(stateBytes / (blockTokens as real * tokenBytes))
  }

  lemma BlockIsPositive(tokenBytes: real, stateBytes: real, blockTokens: Pos)
    requires tokenBytes > 0.0 && stateBytes > 0.0
    ensures blockTokens as real * tokenBytes > 0.0
    ensures stateBytes / (blockTokens as real * tokenBytes) > 0.0
    ensures blockTokens * Ceil(stateBytes / (blockTokens as real * tokenBytes)) > 0
  {
    assert Ceil(stateBytes / (blockTokens as real * tokenBytes)) > 0;
  }

  datatype Layers = Layers(attention: Pos, state: Pos)

  /** Pages of one layer each: every group is charged its full size, and one block is held back. */
  function PoolPages(attentionGroups: Pos, contextPages: Pos, stateGroups: Pos, stateCopies: nat, group: Pos): Pos {
    (attentionGroups * contextPages + stateGroups * stateCopies + 1) * group
  }

  datatype Pool = Pool(pages: Pos, pageBytes: real, contextPages: Pos, stateCopies: nat)

  function PoolOf(covering: Pos, tokenBytes: real, layers: Layers, contextTokens: Pos, speculativeTokens: nat,
                  paging: Paging): Pool {
    var group := GroupSize(layers.attention, layers.state, paging.groupSizeRatio);
    var contextPages, stateCopies := CeilDiv(contextTokens, covering),
      paging.alignStatePagesPerGroup + speculativeTokens;
    Pool(PoolPages(CeilDiv(layers.attention, group), contextPages, CeilDiv(layers.state, group), stateCopies, group),
         covering as real * tokenBytes, contextPages, stateCopies)
  }

  function PagedHybridBytes(p: Pool): real {
    p.pages as real * p.pageBytes
  }

  function ContextTokens(sizing: Sizing): Pos {
    match sizing.attentionWindow
    case Some(window) => if window < sizing.maxContextLength then window else sizing.maxContextLength
    case None => sizing.maxContextLength
  }

  function BlockTokens(sizing: Sizing, paging: Paging): Pos {
    if sizing.heads.mla then paging.latentBlockTokens else paging.standardBlockTokens
  }

  /** What one rank holds per token and per request; layers are known for models the engine pages by layer. */
  datatype Rank = Rank(
    tokenBytes: real,
    stateBytes: real,
    contextTokens: Pos,
    blockTokens: Pos,
    layers: Option<Layers>)
  {
    predicate Valid() { tokenBytes > 0.0 && stateBytes >= 0.0 && (layers.Some? ==> stateBytes > 0.0) }
  }

  function RankOf(sizing: Sizing, share: real, ranks: Pos, paging: Paging): Rank
    requires sizing.kvBytesPerToken.Some?
  {
    Rank(sizing.kvBytesPerToken.value as real * share,
         (match sizing.stateBytesPerSequence case Some(bytes) => bytes as real case None => 0.0) / ranks as real,
         ContextTokens(sizing),
         BlockTokens(sizing, paging),
         if sizing.stateBytesPerSequence.Some? && sizing.attentionLayers.Some? && sizing.stateLayers.Some?
         then Some(Layers(sizing.attentionLayers.value, sizing.stateLayers.value)) else None)
  }

  function RankPool(r: Rank, speculativeTokens: nat, paging: Paging): Pool
    requires r.Valid() && r.layers.Some?
  {
    var layers := r.layers.value;
    var tokenBytes, stateBytes := r.tokenBytes / layers.attention as real, r.stateBytes / layers.state as real;
    PoolOf(CoveringTokens(tokenBytes, stateBytes, r.blockTokens), tokenBytes, layers, r.contextTokens,
           speculativeTokens, paging)
  }

  /** What the engine pages on one rank for one request of full context. */
  function RankBytes(r: Rank, speculativeTokens: nat, paging: Paging): real
    requires r.Valid()
  {
    if r.layers.Some? then PagedHybridBytes(RankPool(r, speculativeTokens, paging))
    else AttentionBytes(r.tokenBytes, r.contextTokens, r.blockTokens) + r.stateBytes
  }

  predicate WholeHundredths(x: real) { (x * 100.0).Floor as real == x * 100.0 }

  /** Rounded up to hundredths. */
  function HundredthsUp(x: real): (up: real)
    ensures x <= up < x + 0.01 && WholeHundredths(up)
  {
    Ceil(x * 100.0) as real / 100.0
  }

  /** The share of the cache holds the bytes, and that of a hundredth of a GB less does not. */
  predicate Covers(gb: real, share: real, bytes: real) {
    (gb - 0.01) * (share * 1000000000.0) < bytes <= gb * (share * 1000000000.0)
  }

  /** The least whole number of hundredths of a GB whose share is that many bytes. */
  function SharedUp(bytes: real, share: real): (gb: real)
    requires share > 0.0
    ensures Covers(gb, share, bytes) && WholeHundredths(gb)
  {
    var exact := bytes / share / BYTES_PER_GB;
    RoundingCovers(bytes, share, exact, HundredthsUp(exact));
    HundredthsUp(exact)
  }

  lemma RoundingCovers(bytes: real, share: real, gb: real, up: real)
    requires share > 0.0 && gb == bytes / share / BYTES_PER_GB && gb <= up < gb + 0.01
    ensures (up - 0.01) * (share * BYTES_PER_GB) < bytes <= up * (share * BYTES_PER_GB)
  {
    var unit := share * BYTES_PER_GB;
    Undivide(bytes, share);
    assert gb * unit == bytes;
    assert bytes <= up * unit by {
      ScaleUp(gb, up, unit);
    }
    Below(bytes, unit, gb, up - 0.01);
  }

  lemma Below(bytes: real, unit: real, gb: real, low: real)
    requires unit > 0.0 && gb * unit == bytes && low < gb
    ensures low * unit < bytes
  {
    Strictly(low, gb, unit);
  }

  /** The entry states a cost per token and its heads divide over the ranks. */
  predicate StatesFloor(sizing: Sizing, ranks: Pos) {
    sizing.kvBytesPerToken.Some? && KvCacheSharePerCard(sizing.heads, ranks).Some?
  }

  function KvCacheFloorGb(sizing: Sizing, ranks: Pos, speculativeTokens: nat, paging: Paging): Option<real> {
    match KvCacheSharePerCard(sizing.heads, ranks)
    case None => None
    case Some(share) =>
      if sizing.kvBytesPerToken.None? then None
      else
        RankIsValid(sizing, ranks, paging);
        Some(SharedUp(RankBytes(RankOf(sizing, share, ranks, paging), speculativeTokens, paging), share))
  }

  lemma RankIsValid(sizing: Sizing, ranks: Pos, paging: Paging)
    requires sizing.kvBytesPerToken.Some? && KvCacheSharePerCard(sizing.heads, ranks).Some?
    ensures var share := KvCacheSharePerCard(sizing.heads, ranks).value;
      share > 0.0 && RankOf(sizing, share, ranks, paging).Valid()
  {
    SharesCoverCache(sizing.heads, ranks);
    Positive(sizing.kvBytesPerToken.value as real, KvCacheSharePerCard(sizing.heads, ranks).value);
  }

  // Products

  lemma Positive(a: real, b: real)
    requires a > 0.0 && b > 0.0
    ensures a * b > 0.0
  {
  }

  lemma ScaleUp(a: real, b: real, c: real)
    requires a <= b && c >= 0.0
    ensures a * c <= b * c
  {
    assert (b - a) * c >= 0.0;
  }

  lemma ScaleUpInt(a: int, b: int, c: int)
    requires a <= b && c >= 0
    ensures a * c <= b * c
  {
    assert (b - a) * c >= 0;
  }

  /** A page covers a layer's state, and less than a block more. */
  lemma PageCoversState(tokenBytes: real, stateBytes: real, blockTokens: Pos)
    requires tokenBytes > 0.0 && stateBytes > 0.0
    ensures var covering := CoveringTokens(tokenBytes, stateBytes, blockTokens) as real;
      stateBytes <= covering * tokenBytes < stateBytes + blockTokens as real * tokenBytes
  {
    var block := blockTokens as real * tokenBytes;
    BlockIsPositive(tokenBytes, stateBytes, blockTokens);
    var n := Ceil(stateBytes / block);
    Undivide(stateBytes, block);
    ProductAsReal(blockTokens, n);
    var page := CoveringTokens(tokenBytes, stateBytes, blockTokens) as real * tokenBytes;
    WholeBlocks(n as real, blockTokens as real, tokenBytes,
                CoveringTokens(tokenBytes, stateBytes, blockTokens) as real);
    CeilAbove(stateBytes, block, stateBytes / block, n as real, page);
    CeilTimes(stateBytes, block, stateBytes / block, n as real);
  }

  lemma WholeBlocks(n: real, blockTokens: real, tokenBytes: real, covering: real)
    requires covering == blockTokens * n
    ensures covering * tokenBytes == n * (blockTokens * tokenBytes)
  {
    assert covering * tokenBytes == (blockTokens * n) * tokenBytes;
  }

  lemma CeilAbove(x: real, unit: real, q: real, n: real, up: real)
    requires unit > 0.0 && q * unit == x && q <= n && up == n * unit
    ensures x <= up
  {
    ScaleUp(q, n, unit);
  }

  lemma CeilTimes(x: real, unit: real, q: real, n: real)
    requires unit > 0.0 && q * unit == x && n - 1.0 < q
    ensures n * unit < x + unit
  {
    Strictly(n, q + 1.0, unit);
    assert (q + 1.0) * unit == x + unit;
  }

  lemma Undivide(x: real, unit: real)
    requires unit > 0.0
    ensures x / unit * unit == x
  {
  }

  lemma Strictly(a: real, b: real, c: real)
    requires a < b && c > 0.0
    ensures a * c < b * c
  {
    assert (b - a) * c > 0.0;
  }

  /** Groups that cover all layers have a page for every layer of every page of context and of every state copy. */
  lemma GroupsCoverLayers(layers: Layers, attentionGroups: Pos, contextPages: Pos, stateGroups: Pos, stateCopies: nat,
                          group: Pos)
    requires layers.attention <= attentionGroups * group && layers.state <= stateGroups * group
    ensures PoolPages(attentionGroups, contextPages, stateGroups, stateCopies, group)
        >= layers.attention * contextPages + layers.state * stateCopies + group
  {
    ScaleUpInt(layers.attention, attentionGroups * group, contextPages);
    ScaleUpInt(layers.state, stateGroups * group, stateCopies);
    Distribute(attentionGroups, contextPages, stateGroups, stateCopies, group);
  }

  lemma Distribute(a: int, pages: int, s: int, copies: int, group: int)
    ensures (a * pages + s * copies + 1) * group == (a * group) * pages + (s * group) * copies + group
  {
    assert (a * pages + s * copies + 1) * group == (a * pages) * group + (s * copies) * group + group;
    assert (a * pages) * group == (a * group) * pages;
    assert (s * copies) * group == (s * group) * copies;
  }

  /** The pool has a page of every layer for all the context and every state copy. */
  predicate EnoughPages(p: Pool, layers: Layers) {
    p.pages as real >= layers.attention as real * p.contextPages as real + layers.state as real * p.stateCopies as real
  }

  /** The pages of a layer hold its context, and one holds its state. */
  predicate PagesHold(p: Pool, contextBytes: real, stateBytes: real) {
    contextBytes <= p.contextPages as real * p.pageBytes && 0.0 < stateBytes <= p.pageBytes
  }

  lemma {:induction false} CeilDivCovers(a: Pos, b: Pos)
    ensures a <= CeilDiv(a, b) * b
  {
    CeilDivIsCeiling(a, b);
  }

  lemma SumAsReal(total: int, a: int, b: int, c: int, d: int)
    requires total >= a * b + c * d
    ensures total as real >= a as real * b as real + c as real * d as real
  {
    ProductAsReal(a, b);
    ProductAsReal(c, d);
  }

  lemma {:induction false} PagesForAllLayers(layers: Layers, contextPages: Pos, stateCopies: nat, group: Pos)
    ensures
      var attentionGroups, stateGroups := CeilDiv(layers.attention, group), CeilDiv(layers.state, group);
      PoolPages(attentionGroups, contextPages, stateGroups, stateCopies, group) as real
      >= layers.attention as real * contextPages as real + layers.state as real * stateCopies as real
  {
    var attentionGroups, stateGroups := CeilDiv(layers.attention, group), CeilDiv(layers.state, group);
    CeilDivCovers(layers.attention, group);
    CeilDivCovers(layers.state, group);
    GroupsCoverLayers(layers, attentionGroups, contextPages, stateGroups, stateCopies, group);
    SumAsReal(PoolPages(attentionGroups, contextPages, stateGroups, stateCopies, group),
              layers.attention, contextPages, layers.state, stateCopies);
  }

  lemma PoolHasPages(covering: Pos, tokenBytes: real, layers: Layers, contextTokens: Pos, speculativeTokens: nat,
                     paging: Paging)
    ensures EnoughPages(PoolOf(covering, tokenBytes, layers, contextTokens, speculativeTokens, paging), layers)
  {
    PagesForAllLayers(layers, CeilDiv(contextTokens, covering), paging.alignStatePagesPerGroup + speculativeTokens,
                      GroupSize(layers.attention, layers.state, paging.groupSizeRatio));
  }

  lemma PoolHolds(covering: Pos, tokenBytes: real, stateBytes: real, layers: Layers, contextTokens: Pos,
                  speculativeTokens: nat, paging: Paging)
    requires tokenBytes > 0.0 && 0.0 < stateBytes <= covering as real * tokenBytes
    ensures PagesHold(PoolOf(covering, tokenBytes, layers, contextTokens, speculativeTokens, paging),
                      contextTokens as real * tokenBytes, stateBytes)
  {
    PagesCoverContext(contextTokens, covering, tokenBytes,
                      PoolOf(covering, tokenBytes, layers, contextTokens, speculativeTokens, paging).pageBytes);
  }

  lemma ProductAsReal(a: int, b: int)
    ensures (a * b) as real == a as real * b as real
  {
  }

  lemma AddParts(total: real, layers: real, pages: real, states: real, copies: real, page: real, stateBytes: real,
                 context: real, pool: real)
    requires pool == total * page
    requires total >= layers * pages + states * copies && states >= 0.0 && copies >= 0.0 && page >= stateBytes > 0.0
        && layers >= 0.0 && context <= pages * page
    ensures pool >= layers * context + copies * (states * stateBytes)
  {
    var x, y := layers * pages, states * copies;
    ScaleUp(x + y, total, page);
    assert (x + y) * page == x * page + y * page;
    assert y >= 0.0;
    ScaleUp(stateBytes, page, y);
    Reassociate(layers, pages, page);
    ScaleUp(context, pages * page, layers);
    Reassociate(copies, states, stateBytes);
  }

  lemma Reassociate(a: real, b: real, c: real)
    ensures (a * b) * c == (b * c) * a
  {
  }

  lemma {:induction false} PagesCoverContext(contextTokens: Pos, covering: Pos, tokenBytes: real, page: real)
    requires tokenBytes > 0.0 && page == covering as real * tokenBytes
    ensures contextTokens as real * tokenBytes <= CeilDiv(contextTokens, covering) as real * page
  {
    var pages := CeilDiv(contextTokens, covering);
    CeilDivCovers(contextTokens, covering);
    ProductAsReal(pages, covering);
    ScaleUp(contextTokens as real, pages as real * covering as real, tokenBytes);
    assert (pages as real * covering as real) * tokenBytes == pages as real * page;
  }

  lemma SpreadOverLayers(total: real, layers: real, each: real, factor: real)
    requires each * layers == total
    ensures layers * (factor * each) == total * factor
  {
    Reassociate(layers, factor, each);
    assert layers * (factor * each) == (each * layers) * factor;
  }

  lemma AllParts(pool: real, total: real, page: real,
                 attention: real, pages: real, tokenLayer: real, context: real, tokenBytes: real,
                 state: real, copies: real, stateLayer: real, stateBytes: real)
    requires pool == total * page && total >= attention * pages + state * copies
    requires attention >= 0.0 && state >= 0.0 && copies >= 0.0 && page >= stateLayer > 0.0
        && context * tokenLayer <= pages * page
    requires tokenLayer * attention == tokenBytes && stateLayer * state == stateBytes
    ensures pool >= tokenBytes * context + copies * stateBytes
  {
    AddParts(total, attention, pages, state, copies, page, stateLayer, context * tokenLayer, pool);
    JoinLayers(pool, attention, tokenLayer, context, tokenBytes, state, stateLayer, stateBytes, copies);
  }

  lemma JoinLayers(pool: real, attention: real, tokenLayer: real, context: real, tokenBytes: real, state: real,
                   stateLayer: real, stateBytes: real, copies: real)
    requires pool >= attention * (context * tokenLayer) + copies * (state * stateLayer)
    requires tokenLayer * attention == tokenBytes && stateLayer * state == stateBytes
    ensures pool >= tokenBytes * context + copies * stateBytes
  {
    SpreadOverLayers(tokenBytes, attention, tokenLayer, context);
    assert state * stateLayer == stateBytes;
  }

  /** Copies of the state one request needs: with layer counts known, those the engine aligns to and one per
      speculative token. */
  function StateCopies(r: Rank, speculativeTokens: nat, paging: Paging): nat {
    if r.layers.Some? then paging.alignStatePagesPerGroup + speculativeTokens else 1
  }

  /** One full context and every copy of the state, without paging. */
  function RequestBytes(r: Rank, copies: nat): real {
    r.tokenBytes * r.contextTokens as real + copies as real * r.stateBytes
  }

  /** Such a pool holds one full context on every attention layer and every copy of the state. */
  lemma PagesCoverRank(p: Pool, r: Rank, tokenLayer: real, stateLayer: real)
    requires r.Valid() && r.layers.Some?
    requires tokenLayer * r.layers.value.attention as real == r.tokenBytes
        && stateLayer * r.layers.value.state as real == r.stateBytes
    requires EnoughPages(p, r.layers.value) && PagesHold(p, r.contextTokens as real * tokenLayer, stateLayer)
    ensures PagedHybridBytes(p) >= RequestBytes(r, p.stateCopies)
  {
    var layers := r.layers.value;
    AllParts(PagedHybridBytes(p), p.pages as real, p.pageBytes, layers.attention as real, p.contextPages as real,
             tokenLayer, r.contextTokens as real, r.tokenBytes,
             layers.state as real, p.stateCopies as real, stateLayer, r.stateBytes);
  }

  lemma PagedCoversRank(r: Rank, tokenLayer: real, stateLayer: real, speculativeTokens: nat, paging: Paging)
    requires r.Valid() && r.layers.Some? && tokenLayer > 0.0 && stateLayer > 0.0
    requires tokenLayer * r.layers.value.attention as real == r.tokenBytes
        && stateLayer * r.layers.value.state as real == r.stateBytes
    ensures
      var covering := CoveringTokens(tokenLayer, stateLayer, r.blockTokens);
      var pool := PoolOf(covering, tokenLayer, r.layers.value, r.contextTokens, speculativeTokens, paging);
      PagedHybridBytes(pool) >= RequestBytes(r, StateCopies(r, speculativeTokens, paging))
  {
    var layers, covering := r.layers.value, CoveringTokens(tokenLayer, stateLayer, r.blockTokens);
    PageCoversState(tokenLayer, stateLayer, r.blockTokens);
    PoolHasPages(covering, tokenLayer, layers, r.contextTokens, speculativeTokens, paging);
    PoolHolds(covering, tokenLayer, stateLayer, layers, r.contextTokens, speculativeTokens, paging);
    PagesCoverRank(PoolOf(covering, tokenLayer, layers, r.contextTokens, speculativeTokens, paging), r, tokenLayer,
                   stateLayer);
  }

  /** A rank's pool is never below the unpaged cost of one full context and its state copies. */
  lemma PoolCoversRequest(r: Rank, speculativeTokens: nat, paging: Paging)
    requires r.Valid()
    ensures RankBytes(r, speculativeTokens, paging) >= RequestBytes(r, StateCopies(r, speculativeTokens, paging))
  {
    if r.layers.Some? {
      var layers := r.layers.value;
      Undivide(r.tokenBytes, layers.attention as real);
      Undivide(r.stateBytes, layers.state as real);
      PagedCoversRank(r, r.tokenBytes / layers.attention as real, r.stateBytes / layers.state as real,
                      speculativeTokens, paging);
    } else {
      BlocksCoverContext(r.tokenBytes, r.contextTokens, r.blockTokens);
    }
  }

  lemma BlocksCoverContext(tokenBytes: real, contextTokens: Pos, blockTokens: Pos)
    requires tokenBytes > 0.0
    ensures AttentionBytes(tokenBytes, contextTokens, blockTokens) >= tokenBytes * contextTokens as real
  {
    var blocks := CeilDiv(contextTokens, blockTokens);
    CeilDivIsCeiling(contextTokens, blockTokens);
    assert (blocks + 1) * blockTokens == blocks * blockTokens + blockTokens;
    ScaleUp(contextTokens as real, ((blocks + 1) * blockTokens) as real, tokenBytes);
  }

  // The bytes of a rank, said without the formula.

  /** No fewer blocks of that size hold so many. */
  predicate IsLeast(blocks: int, size: Pos, held: Pos) { (blocks - 1) * size < held <= blocks * size }

  /** Whole blocks, as few as hold the state of a layer. */
  predicate IsPage(tokens: Pos, blocks: int, tokenLayer: real, stateLayer: real, blockTokens: Pos) {
    && tokens == blockTokens * blocks
    && stateLayer <= tokens as real * tokenLayer < stateLayer + blockTokens as real * tokenLayer
  }

  /** The larger of the two layer counts while it stays below the ratio times the smaller, else the smaller. */
  predicate IsGroup(group: Pos, a: Pos, b: Pos, ratio: real) {
    && (group == a || group == b)
    && (group > a || group > b ==> group as real < ratio * (if group == a then b else a) as real)
    && (group < a || group < b ==> (if group == a then b else a) as real >= ratio * group as real)
  }

  datatype Paged = Paged(tokens: Pos, blocks: int, pages: Pos, group: Pos, attentionGroups: Pos, stateGroups: Pos)

  ghost predicate IsPaged(g: Paged, context: Pos, blockTokens: Pos, tokenLayer: real, stateLayer: real, layers: Layers,
                          ratio: real) {
    && IsPage(g.tokens, g.blocks, tokenLayer, stateLayer, blockTokens) && IsLeast(g.pages, g.tokens, context)
    && IsGroup(g.group, layers.attention, layers.state, ratio)
    && IsLeast(g.attentionGroups, g.group, layers.attention) && IsLeast(g.stateGroups, g.group, layers.state)
  }

  lemma {:induction false} GroupIsRight(a: Pos, b: Pos, ratio: real)
    ensures IsGroup(GroupSize(a, b, ratio), a, b, ratio)
  {
  }

  lemma {:induction false} PageIsRight(tokenLayer: real, stateLayer: real, blockTokens: Pos) returns (blocks: int)
    requires tokenLayer > 0.0 && stateLayer > 0.0
    ensures IsPage(CoveringTokens(tokenLayer, stateLayer, blockTokens), blocks, tokenLayer, stateLayer, blockTokens)
  {
    BlockIsPositive(tokenLayer, stateLayer, blockTokens);
    PageCoversState(tokenLayer, stateLayer, blockTokens);
    blocks := Ceil(stateLayer / (blockTokens as real * tokenLayer));
  }

  lemma {:induction false} PoolIsRight(tokenLayer: real, stateLayer: real, layers: Layers, context: Pos,
                                       blockTokens: Pos, speculativeTokens: nat, paging: Paging)
    returns (g: Paged)
    requires tokenLayer > 0.0 && stateLayer > 0.0
    ensures IsPaged(g, context, blockTokens, tokenLayer, stateLayer, layers, paging.groupSizeRatio)
    ensures
      var tokens := CoveringTokens(tokenLayer, stateLayer, blockTokens);
      var p := PoolOf(tokens, tokenLayer, layers, context, speculativeTokens, paging);
      && p.pageBytes == g.tokens as real * tokenLayer
      && p.pages == (g.attentionGroups * g.pages
                     + g.stateGroups * (paging.alignStatePagesPerGroup + speculativeTokens) + 1) * g.group
  {
    var blocks := PageIsRight(tokenLayer, stateLayer, blockTokens);
    var tokens := CoveringTokens(tokenLayer, stateLayer, blockTokens);
    var group := GroupSize(layers.attention, layers.state, paging.groupSizeRatio);
    GroupIsRight(layers.attention, layers.state, paging.groupSizeRatio);
    CeilDivIsCeiling(context, tokens);
    CeilDivIsCeiling(layers.attention, group);
    CeilDivIsCeiling(layers.state, group);
    g := Paged(tokens, blocks, CeilDiv(context, tokens), group, CeilDiv(layers.attention, group),
               CeilDiv(layers.state, group));
  }

  /** A model the engine pages by layer: on every layer of a group as many pages as hold the context and the copies
      of the state, and one more. */
  lemma {:induction false} PagedBytesAre(r: Rank, speculativeTokens: nat, paging: Paging)
    returns (g: Paged, pages: Pos, pageBytes: real)
    requires r.Valid() && r.layers.Some?
    ensures var layers := r.layers.value;
      var tokenLayer, stateLayer := r.tokenBytes / layers.attention as real, r.stateBytes / layers.state as real;
      && IsPaged(g, r.contextTokens, r.blockTokens, tokenLayer, stateLayer, layers, paging.groupSizeRatio)
      && pageBytes == g.tokens as real * tokenLayer
    ensures pages == (g.attentionGroups * g.pages
                      + g.stateGroups * (paging.alignStatePagesPerGroup + speculativeTokens) + 1) * g.group
    ensures RankBytes(r, speculativeTokens, paging) == pages as real * pageBytes
  {
    var layers := r.layers.value;
    g := PoolIsRight(r.tokenBytes / layers.attention as real, r.stateBytes / layers.state as real, layers,
                     r.contextTokens, r.blockTokens, speculativeTokens, paging);
    var p := RankPool(r, speculativeTokens, paging);
    pages, pageBytes := p.pages, p.pageBytes;
  }

  /** Any other model: whole blocks of the context and one more, and the state. */
  lemma {:induction false} UnpagedBytesAre(r: Rank, speculativeTokens: nat, paging: Paging) returns (blocks: Pos)
    requires r.Valid() && r.layers.None?
    ensures IsLeast(blocks, r.blockTokens, r.contextTokens)
    ensures RankBytes(r, speculativeTokens, paging)
      == r.tokenBytes * ((blocks + 1) * r.blockTokens) as real + r.stateBytes
  {
    CeilDivIsCeiling(r.contextTokens, r.blockTokens);
    blocks := CeilDiv(r.contextTokens, r.blockTokens);
  }

  /** What a rank holds, in the entry's own terms: its share of a token, its part of the state, the context within
      the window, the block size of its kind of attention, and layers only with a state and both counts. */
  lemma {:induction false} RankHolds(sizing: Sizing, share: real, ranks: Pos, paging: Paging)
    requires sizing.kvBytesPerToken.Some?
    ensures var r := RankOf(sizing, share, ranks, paging);
      && r.tokenBytes == sizing.kvBytesPerToken.value as real * share
      && r.stateBytes * ranks as real
         == (if sizing.stateBytesPerSequence.Some? then sizing.stateBytesPerSequence.value as real else 0.0)
      && r.contextTokens <= sizing.maxContextLength
      && (r.contextTokens < sizing.maxContextLength ==> sizing.attentionWindow == Some(r.contextTokens))
      && (sizing.attentionWindow.Some? ==> r.contextTokens <= sizing.attentionWindow.value)
      && (sizing.heads.mla ==> r.blockTokens == paging.latentBlockTokens)
      && (!sizing.heads.mla ==> r.blockTokens == paging.standardBlockTokens)
      && (r.layers.Some? <==>
            sizing.stateBytesPerSequence.Some? && sizing.attentionLayers.Some? && sizing.stateLayers.Some?)
      && (r.layers.Some?
          ==> && sizing.attentionLayers == Some(r.layers.value.attention)
              && sizing.stateLayers == Some(r.layers.value.state))
  {
    Undivide(match sizing.stateBytesPerSequence case Some(bytes) => bytes as real case None => 0.0, ranks as real);
  }

  /** The floor is the least whole number of hundredths of a GB whose share covers the rank's pool. */
  lemma FloorCoversPool(sizing: Sizing, ranks: Pos, speculativeTokens: nat,
                        paging: Paging) returns (r: Rank, share: real)
    requires StatesFloor(sizing, ranks)
    ensures KvCacheFloorGb(sizing, ranks, speculativeTokens, paging).Some?
    ensures KvCacheSharePerCard(sizing.heads, ranks) == Some(share) && share > 0.0
    ensures r == RankOf(sizing, share, ranks, paging) && r.Valid()
    ensures WholeHundredths(KvCacheFloorGb(sizing, ranks, speculativeTokens, paging).value)
    ensures Covers(KvCacheFloorGb(sizing, ranks, speculativeTokens, paging).value, share,
                   RankBytes(r, speculativeTokens, paging))
  {
    RankIsValid(sizing, ranks, paging);
    share := KvCacheSharePerCard(sizing.heads, ranks).value;
    r := RankOf(sizing, share, ranks, paging);
  }

  /** Given the floor, every rank's share of the cache holds one full context and the state copies, and the
      ranks together hold at least the whole cache. */
  lemma FloorServesFullContext(sizing: Sizing, ranks: Pos, speculativeTokens: nat,
                               paging: Paging) returns (r: Rank, share: real)
    requires StatesFloor(sizing, ranks)
    ensures KvCacheFloorGb(sizing, ranks, speculativeTokens, paging).Some?
    ensures KvCacheSharePerCard(sizing.heads, ranks) == Some(share) && ranks as real * share >= 1.0
    ensures r == RankOf(sizing, share, ranks, paging)
    ensures KvCacheFloorGb(sizing, ranks, speculativeTokens, paging).value * (share * BYTES_PER_GB)
        >= RequestBytes(r, StateCopies(r, speculativeTokens, paging))
  {
    r, share := FloorCoversPool(sizing, ranks, speculativeTokens, paging);
    SharesCoverCache(sizing.heads, ranks);
    PoolCoversRequest(r, speculativeTokens, paging);
  }

  // Monotony

  lemma {:induction false} CeilDivGrows(a: Pos, larger: Pos, b: Pos)
    requires a <= larger
    ensures CeilDiv(a, b) <= CeilDiv(larger, b)
  {
    if a > b {
      CeilDivGrows(a - b, larger - b, b);
    }
  }

  lemma PoolGrows(attentionGroups: Pos, contextPages: Pos, morePages: Pos, stateGroups: Pos, stateCopies: nat,
                  moreCopies: nat, group: Pos)
    requires contextPages <= morePages && stateCopies <= moreCopies
    ensures PoolPages(attentionGroups, contextPages, stateGroups, stateCopies, group)
      <= PoolPages(attentionGroups, morePages, stateGroups, moreCopies, group)
  {
    ScaleUpInt(contextPages, morePages, attentionGroups);
    ScaleUpInt(stateCopies, moreCopies, stateGroups);
    ScaleUpInt(attentionGroups * contextPages + stateGroups * stateCopies + 1,
               attentionGroups * morePages + stateGroups * moreCopies + 1, group);
  }

  lemma PoolOfGrows(covering: Pos, tokenBytes: real, layers: Layers, contextTokens: Pos, longer: Pos,
                    speculativeTokens: nat, more: nat, paging: Paging)
    requires contextTokens <= longer && speculativeTokens <= more
    ensures PoolOf(covering, tokenBytes, layers, contextTokens, speculativeTokens, paging).pages
      <= PoolOf(covering, tokenBytes, layers, longer, more, paging).pages
  {
    var group := GroupSize(layers.attention, layers.state, paging.groupSizeRatio);
    CeilDivGrows(contextTokens, longer, covering);
    PoolGrows(CeilDiv(layers.attention, group), CeilDiv(contextTokens, covering), CeilDiv(longer, covering),
              CeilDiv(layers.state, group), paging.alignStatePagesPerGroup + speculativeTokens,
                paging.alignStatePagesPerGroup + more, group);
  }

  lemma MorePages(p: Pool, q: Pool)
    requires p.pages <= q.pages && p.pageBytes == q.pageBytes >= 0.0
    ensures PagedHybridBytes(p) <= PagedHybridBytes(q)
  {
    ScaleUp(p.pages as real, q.pages as real, p.pageBytes);
  }

  lemma PagedGrows(covering: Pos, tokenBytes: real, layers: Layers, contextTokens: Pos, longer: Pos,
                   speculativeTokens: nat, more: nat, paging: Paging)
    requires tokenBytes > 0.0 && contextTokens <= longer && speculativeTokens <= more
    ensures PagedHybridBytes(PoolOf(covering, tokenBytes, layers, contextTokens, speculativeTokens, paging))
         <= PagedHybridBytes(PoolOf(covering, tokenBytes, layers, longer, more, paging))
  {
    PoolOfGrows(covering, tokenBytes, layers, contextTokens, longer, speculativeTokens, more, paging);
    Positive(covering as real, tokenBytes);
    MorePages(PoolOf(covering, tokenBytes, layers, contextTokens, speculativeTokens, paging),
              PoolOf(covering, tokenBytes, layers, longer, more, paging));
  }

  lemma BlocksGrow(tokenBytes: real, contextTokens: Pos, longer: Pos, blockTokens: Pos)
    requires tokenBytes > 0.0 && contextTokens <= longer
    ensures AttentionBytes(tokenBytes, contextTokens, blockTokens) <= AttentionBytes(tokenBytes, longer, blockTokens)
  {
    var a, b := CeilDiv(contextTokens, blockTokens) + 1, CeilDiv(longer, blockTokens) + 1;
    CeilDivGrows(contextTokens, longer, blockTokens);
    ScaleUpInt(a, b, blockTokens);
    ScaleUp((a * blockTokens) as real, (b * blockTokens) as real, tokenBytes);
  }

  lemma RankBytesGrow(r: Rank, longer: Pos, speculativeTokens: nat, more: nat, paging: Paging)
    requires r.Valid() && r.contextTokens <= longer && speculativeTokens <= more
    ensures RankBytes(r, speculativeTokens, paging) <= RankBytes(r.(contextTokens := longer), more, paging)
  {
    if r.layers.Some? {
      var layers := r.layers.value;
      var tokenLayer, stateLayer := r.tokenBytes / layers.attention as real, r.stateBytes / layers.state as real;
      var covering := CoveringTokens(tokenLayer, stateLayer, r.blockTokens);
      PagedGrows(covering, tokenLayer, layers, r.contextTokens, longer, speculativeTokens, more, paging);
    } else {
      BlocksGrow(r.tokenBytes, r.contextTokens, longer, r.blockTokens);
    }
  }

  /** A longer context or more speculative tokens never lower the floor. */
  lemma FloorIsMonotone(sizing: Sizing, longer: Pos, ranks: Pos, speculativeTokens: nat, more: nat, paging: Paging)
    requires StatesFloor(sizing, ranks) && sizing.maxContextLength <= longer && speculativeTokens <= more
    ensures var grown := KvCacheFloorGb(sizing.(maxContextLength := longer), ranks, more, paging);
      KvCacheFloorGb(sizing, ranks, speculativeTokens, paging).Some? && grown.Some?
        && KvCacheFloorGb(sizing, ranks, speculativeTokens, paging).value <= grown.value
  {
    RankIsValid(sizing, ranks, paging);
    var share := KvCacheSharePerCard(sizing.heads, ranks).value;
    var r, grown := RankOf(sizing, share, ranks, paging),
      RankOf(sizing.(maxContextLength := longer), share, ranks, paging);
    assert grown == r.(contextTokens := grown.contextTokens) && r.contextTokens <= grown.contextTokens;
    RankBytesGrow(r, grown.contextTokens, speculativeTokens, more, paging);
    RoundedGrows(RankBytes(r, speculativeTokens, paging), RankBytes(grown, more, paging), share);
  }

  lemma RoundedGrows(a: real, b: real, share: real)
    requires a <= b && share > 0.0
    ensures SharedUp(a, share) <= SharedUp(b, share)
  {
    DivideBoth(a, b, share);
    HundredthsGrow(a / share / BYTES_PER_GB, b / share / BYTES_PER_GB);
  }

  lemma HundredthsGrow(a: real, b: real)
    requires a <= b
    ensures HundredthsUp(a) <= HundredthsUp(b)
  {
    CeilGrows(a * 100.0, b * 100.0);
  }

  lemma CeilGrows(a: real, b: real)
    requires a <= b
    ensures Ceil(a) <= Ceil(b)
  {
    var m, n := Ceil(a), Ceil(b);
    assert m as real - 1.0 < n as real;
    assert (m - 1) as real == m as real - 1.0;
  }

  lemma DivideBoth(a: real, b: real, c: real)
    requires a <= b && c > 0.0
    ensures a / c <= b / c
  {
  }
}

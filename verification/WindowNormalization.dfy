/** How the host rewrites a caller's causal flag and window before it picks a kernel, and when
    the rewritten settings admit the same (query, key) pairs.
    `hopper/flash_api.cpp` (attention_chunk = 0) and `FA4_fp32/interface.py`. */
module WindowNormalization {
  import opened TruncatedDivision

  // ---------------------------------------------------------------- hopper/flash_api.cpp

  /** What a caller of the Hopper front end passes: a negative window side is unbounded. */
  datatype Settings = Settings(causal: bool, left: int, right: int)

  /** What the kernels receive. */
  datatype Params = Params(isCausal: bool, isLocal: bool, left: int, right: int)

  /** The pairs the caller asks for, aligned to the bottom right corner of a q-by-k matrix. */
  predicate CallerAdmits(w: Settings, q: int, k: int, i: int, j: int) {
    && (w.causal ==> j <= i + k - q)
    && (w.left >= 0 ==> i + k - q - w.left <= j)
    && (w.right >= 0 ==> j <= i + k - q + w.right)
  }

  /** The pairs a kernel keeps. */
  predicate KernelAdmits(p: Params, q: int, k: int, i: int, j: int) {
    && (p.isCausal ==> j <= i + k - q)
    && (p.isLocal ==> i + k - q - p.left <= j <= i + k - q + p.right)
  }

  function ForwardSettings(w: Settings, maxQ: int, maxK: int, keepCausal: bool): Settings {
    var left := if w.left >= maxK - 1 then -1 else w.left;
    var right := if w.right >= maxQ - 1 then -1 else w.right;
    var causal := w.causal && !(maxQ == 1 && left == -1 && right == -1 && !keepCausal);
    Settings(causal, left, if causal then 0 else right)
  }

  /** `mha_fwd`: `keepCausal` is the exception for paged K/V with head sizes in (64, 128]. */
  method NormalizeForward(w: Settings, maxQ: int, maxK: int, keepCausal: bool) returns (r: Settings)
    ensures r == ForwardSettings(w, maxQ, maxK, keepCausal)
  {
    var causal, left, right := w.causal, w.left, w.right;
    if left >= maxK - 1 { left := -1; }
    if right >= maxQ - 1 { right := -1; }
    if maxQ == 1 && left == -1 && right == -1 {
      if !keepCausal { causal := false; }
    }
    if causal { right := 0; }
    r := Settings(causal, left, right);
  }

  function BackwardSettings(w: Settings, maxQ: int, maxK: int): Settings {
    var left := if w.left >= maxK - 1 then -1 else w.left;
    var right := if w.causal then 0 else if w.right >= maxQ - 1 then -1 else w.right;
    Settings(left < 0 && right == 0, left, right)
  }

  /** `mha_bwd`: no exception for a single query, and the flag is recomputed at the end. */
  method NormalizeBackward(w: Settings, maxQ: int, maxK: int) returns (r: Settings)
    ensures r == BackwardSettings(w, maxQ, maxK)
  {
    var causal, left, right := w.causal, w.left, w.right;
    if left >= maxK - 1 { left := -1; }
    if right >= maxQ - 1 { right := -1; }
    if causal { right := 0; }
    causal := left < 0 && right == 0;
    r := Settings(causal, left, right);
  }

  function KernelParams(left: int, right: int, maxQ: int, maxK: int): Params {
    var isCausal := left < 0 && right == 0;
    Params(isCausal, (left >= 0 || right >= 0) && !isCausal,
           if left < 0 then maxK - 1 else left, if right < 0 then maxQ - 1 else right)
  }

  /** The caller's settings exclude some pair of the longest queries and keys. */
  ghost predicate ExcludesSome(w: Settings, maxQ: int, maxK: int) {
    exists i, j :: 0 <= i < maxQ && 0 <= j < maxK && !CallerAdmits(w, maxQ, maxK, i, j)
  }

  /** The caller's settings admit the pairs of a causal mask and no others. */
  ghost predicate IsCausalMask(w: Settings, maxQ: int, maxK: int) {
    forall i, j | 0 <= i < maxQ && 0 <= j < maxK :: CallerAdmits(w, maxQ, maxK, i, j) <==> j <= i + maxK - maxQ
  }

  /** The flags say what kind of mask the caller asked for: local exactly when it excludes a pair
      and the kernel is not causal, and causal exactly when it is the causal mask; and no side is
      wider than the matrix. */
  ghost predicate FlagsAreExact(w: Settings, maxQ: int, maxK: int, p: Params) {
    && (p.isLocal <==> !p.isCausal && ExcludesSome(w, maxQ, maxK))
    && (maxQ >= 2 ==> (p.isCausal <==> IsCausalMask(w, maxQ, maxK)))
    && 0 <= p.left < maxK && 0 <= p.right < maxQ
  }

  /** Flags computed from a window that is the caller's, save that a side which reaches all keys
      or queries is -1 and a causal right side is 0, are exact. */
  lemma WindowFlagsAreExact(w: Settings, n: Settings, maxQ: int, maxK: int)
    requires maxQ >= 1 && maxK >= 1
    requires n.left == if w.left >= maxK - 1 then -1 else w.left
    requires n.right == 0 || n.right == if w.right >= maxQ - 1 then -1 else w.right
    requires n.right == 0 ==> w.causal || w.right == 0
    requires w.causal && n.right != 0 ==> maxQ == 1 && n.left < 0 && n.right < 0
    ensures FlagsAreExact(w, maxQ, maxK, KernelParams(n.left, n.right, maxQ, maxK))
  {
    var p := KernelParams(n.left, n.right, maxQ, maxK);
    if n.left >= 0 {
      assert !CallerAdmits(w, maxQ, maxK, maxQ - 1, 0);
    }
    if n.right > 0 || (n.right == 0 && maxQ >= 2) {
      assert !CallerAdmits(w, maxQ, maxK, 0, maxK - 1);
    }
    if maxQ >= 2 && n.right != 0 && n.left < 0 {
      assert CallerAdmits(w, maxQ, maxK, maxQ - 2, maxK - 1);
    }
  }

  /** `set_params_fprop`, which both passes end in: it looks only at the window.  For a window no
      side of which reaches all queries or keys its flags are exact. */
  method SetParams(left0: int, right0: int, maxQ: int, maxK: int) returns (p: Params)
    ensures p == KernelParams(left0, right0, maxQ, maxK)
    ensures maxQ >= 1 && maxK >= 1 && left0 < maxK - 1 && right0 < maxQ - 1 ==>
              FlagsAreExact(Settings(false, left0, right0), maxQ, maxK, p)
  {
    var left, right := left0, right0;
    var isCausal := left < 0 && right == 0;
    var isLocal := (left >= 0 || right >= 0) && !isCausal;
    if left < 0 { left := maxK - 1; }
    if right < 0 { right := maxQ - 1; }
    p := Params(isCausal, isLocal, left, right);
    if maxQ >= 1 && maxK >= 1 && left0 < maxK - 1 && right0 < maxQ - 1 {
      var n := Settings(false, left0, right0);
      WindowFlagsAreExact(n, n, maxQ, maxK);
    }
  }

  /** A window side that reaches the longest sequence never excludes a pair. */
  lemma WideWindowIsUnbounded(maxQ: int, maxK: int, q: int, k: int, i: int, j: int)
    requires 0 <= i < q <= maxQ && 0 <= j < k <= maxK
    ensures i + k - q - (maxK - 1) <= j <= i + k - q + (maxQ - 1)
  {
  }

  /** Forward: for every sequence no longer than the maxima, the kernel keeps exactly the
      pairs the caller asked for. */
  lemma ForwardPreservesMask(w: Settings, maxQ: int, maxK: int, keepCausal: bool,
                             q: int, k: int, i: int, j: int)
    requires 0 <= i < q <= maxQ && 0 <= j < k <= maxK
    ensures var n := ForwardSettings(w, maxQ, maxK, keepCausal);
            KernelAdmits(KernelParams(n.left, n.right, maxQ, maxK), q, k, i, j)
            <==> CallerAdmits(w, q, k, i, j)
  {
    WideWindowIsUnbounded(maxQ, maxK, q, k, i, j);
  }

  /** Backward: the same, and the two passes mask alike, so the gradients belong to the
      attention that was computed. */
  lemma BackwardPreservesMask(w: Settings, maxQ: int, maxK: int, keepCausal: bool,
                              q: int, k: int, i: int, j: int)
    requires 0 <= i < q <= maxQ && 0 <= j < k <= maxK
    ensures var n := BackwardSettings(w, maxQ, maxK);
            var f := ForwardSettings(w, maxQ, maxK, keepCausal);
            var p := KernelParams(n.left, n.right, maxQ, maxK);
            && (KernelAdmits(p, q, k, i, j) <==> CallerAdmits(w, q, k, i, j))
            && (KernelAdmits(p, q, k, i, j)
                <==> KernelAdmits(KernelParams(f.left, f.right, maxQ, maxK), q, k, i, j))
            && n.causal == p.isCausal
  {
    WideWindowIsUnbounded(maxQ, maxK, q, k, i, j);
  }

  /** What the tile calculus needs of its window: a local kernel's window is never empty, and
      a causal kernel receives right = 0. */
  lemma ParamsSuitTiles(w: Settings, maxQ: int, maxK: int, keepCausal: bool)
    requires maxQ >= 1 && maxK >= 1
    ensures var f := ForwardSettings(w, maxQ, maxK, keepCausal);
            var b := BackwardSettings(w, maxQ, maxK);
            var pf := KernelParams(f.left, f.right, maxQ, maxK);
            var pb := KernelParams(b.left, b.right, maxQ, maxK);
            && pf.left + pf.right >= 0 && pb.left + pb.right >= 0
            && (pf.isCausal ==> pf.right == 0) && (pb.isCausal ==> pb.right == 0)
            && !(pf.isCausal && pf.isLocal) && !(pb.isCausal && pb.isLocal)
  {
  }

  /** Forward: the kernel's flags are exact, and the causal flag is dropped only where it
      excludes nothing; for sides of at least -1 exactly for a single query without exception. */
  lemma ForwardFlagsAreExact(w: Settings, maxQ: int, maxK: int, keepCausal: bool)
    requires maxQ >= 1 && maxK >= 1
    ensures var n := ForwardSettings(w, maxQ, maxK, keepCausal);
            && FlagsAreExact(w, maxQ, maxK, KernelParams(n.left, n.right, maxQ, maxK))
            && (n.causal ==> w.causal && n.right == 0)
            && (w.causal && !n.causal ==> maxQ == 1 && !keepCausal && !ExcludesSome(w, maxQ, maxK))
            && (w.causal && maxQ == 1 && !keepCausal && !ExcludesSome(w, maxQ, maxK) && w.left >= -1 && w.right >= -1
                ==> !n.causal)
  {
    var n := ForwardSettings(w, maxQ, maxK, keepCausal);
    WindowFlagsAreExact(w, n, maxQ, maxK);
    if 0 <= w.left < maxK - 1 { assert !CallerAdmits(w, maxQ, maxK, maxQ - 1, 0); }
  }

  /** Backward: the kernel's flags are exact, and equal the flags from which the front end picks
      its block sizes. */
  lemma BackwardFlagsAreExact(w: Settings, maxQ: int, maxK: int)
    requires maxQ >= 1 && maxK >= 1
    ensures var n := BackwardSettings(w, maxQ, maxK);
            var p := KernelParams(n.left, n.right, maxQ, maxK);
            && FlagsAreExact(w, maxQ, maxK, p)
            && p.isCausal == n.causal && p.isLocal == ((n.left >= 0 || n.right >= 0) && !n.causal)
  {
    WindowFlagsAreExact(w, BackwardSettings(w, maxQ, maxK), maxQ, maxK);
  }

  /** Normalisation and set_params_fprop together: the flags and window a forward kernel
      receives keep exactly the caller's pairs, whatever the lengths within the maxima. */
  method ForwardParams(w: Settings, maxQ: int, maxK: int, keepCausal: bool) returns (p: Params)
    ensures forall q, k, i, j | 0 <= i < q <= maxQ && 0 <= j < k <= maxK ::
              KernelAdmits(p, q, k, i, j) <==> CallerAdmits(w, q, k, i, j)
    ensures maxQ >= 1 && maxK >= 1 ==> p.left + p.right >= 0
    ensures (p.isCausal ==> p.right == 0) && !(p.isCausal && p.isLocal)
    ensures maxQ >= 1 && maxK >= 1 ==> FlagsAreExact(w, maxQ, maxK, p)
  {
    hide FlagsAreExact;
    var n := NormalizeForward(w, maxQ, maxK, keepCausal);
    p := SetParams(n.left, n.right, maxQ, maxK);
    forall q, k, i, j | 0 <= i < q <= maxQ && 0 <= j < k <= maxK
      ensures KernelAdmits(p, q, k, i, j) <==> CallerAdmits(w, q, k, i, j)
    {
      ForwardPreservesMask(w, maxQ, maxK, keepCausal, q, k, i, j);
    }
    if maxQ >= 1 && maxK >= 1 {
      ParamsSuitTiles(w, maxQ, maxK, keepCausal);
      ForwardFlagsAreExact(w, maxQ, maxK, keepCausal);
    }
  }

  /** The same for a backward kernel. */
  method BackwardParams(w: Settings, maxQ: int, maxK: int) returns (p: Params)
    ensures forall q, k, i, j | 0 <= i < q <= maxQ && 0 <= j < k <= maxK ::
              KernelAdmits(p, q, k, i, j) <==> CallerAdmits(w, q, k, i, j)
    ensures maxQ >= 1 && maxK >= 1 ==> p.left + p.right >= 0
    ensures (p.isCausal ==> p.right == 0) && !(p.isCausal && p.isLocal)
    ensures maxQ >= 1 && maxK >= 1 ==> FlagsAreExact(w, maxQ, maxK, p)
  {
    hide FlagsAreExact;
    var n := NormalizeBackward(w, maxQ, maxK);
    p := SetParams(n.left, n.right, maxQ, maxK);
    forall q, k, i, j | 0 <= i < q <= maxQ && 0 <= j < k <= maxK
      ensures KernelAdmits(p, q, k, i, j) <==> CallerAdmits(w, q, k, i, j)
    {
      BackwardPreservesMask(w, maxQ, maxK, false, q, k, i, j);
    }
    if maxQ >= 1 && maxK >= 1 {
      ParamsSuitTiles(w, maxQ, maxK, false);
      BackwardFlagsAreExact(w, maxQ, maxK);
    }
  }

  // ---------------------------------------------------------------- FA4_fp32/interface.py

  datatype Side = Unbounded | Within(width: int)

  datatype Resolved = Resolved(causal: bool, local: bool, left: Side, right: Side)

  predicate SideAdmits(left: Side, right: Side, off: int, i: int, j: int) {
    && (left.Within? ==> i + off - left.width <= j)
    && (right.Within? ==> j <= i + off + right.width)
  }

  /** The guard of the branch that drops a window whose sides cross. */
  predicate CrossedWindow(causal: bool, left: Side, right: Side) {
    && left.Within?
    && (causal || right.Within?)
    && left.width + (if causal then 0 else right.width) < 0
  }

  function ResolvedWindow(causal: bool, left: Side, right: Side, maskMod: bool): Resolved {
    if maskMod then Resolved(false, false, left, right)
    else if CrossedWindow(causal, left, right) then Resolved(causal, false, Unbounded, Unbounded)
    else if causal then
      if left.Within? then Resolved(false, true, left, Within(0)) else Resolved(true, false, Unbounded, Unbounded)
    else if left == Unbounded && right == Within(0) then Resolved(true, false, Unbounded, Unbounded)
    else Resolved(false, left.Within? || right.Within?, left, right)
  }

  /** The canonical form that the kernels are picked by: at most one flag, a window only where it
      is needed, and never a local window for a plain causal mask. */
  predicate Canonical(r: Resolved) {
    && !(r.causal && r.local)
    && (!r.local ==> r.left.Unbounded? && r.right.Unbounded?)
    && (r.local ==>
          && (r.left.Within? || r.right.Within?)
          && !(r.left.Unbounded? && r.right == Within(0))
          && (r.left.Within? && r.right.Within? ==> r.left.width + r.right.width >= 0))
  }

  /** `_resolve_causal_local_window`. */
  method ResolveWindow(causal0: bool, left0: Side, right0: Side, maskMod: bool) returns (r: Resolved)
    ensures r == ResolvedWindow(causal0, left0, right0, maskMod)
    ensures !maskMod ==> Canonical(r)
  {
    if maskMod { return Resolved(false, false, left0, right0); }
    var causal, local, left, right := causal0, false, left0, right0;
    if causal { right := Within(0); }
    if left.Within? && right.Within? && left.width + right.width < 0 {
      left := Unbounded;
      right := Unbounded;
    }
    if left.Within? || right.Within? {
      if left.Unbounded? && right == Within(0) {
        causal, local := true, false;
        right := Unbounded;
      } else {
        causal, local := false, true;
      }
    } else {
      local := false;
    }
    r := Resolved(causal, local, left, right);
  }

  /** The pairs the caller's settings describe, and those the resolved settings keep. */
  predicate CallerKeeps(causal: bool, left: Side, right: Side, off: int, i: int, j: int) {
    SideAdmits(left, if causal then Within(0) else right, off, i, j)
  }

  predicate ResolvedKeeps(r: Resolved, off: int, i: int, j: int) {
    && (r.causal ==> j <= i + off)
    && (r.local ==> SideAdmits(r.left, r.right, off, i, j))
  }

  predicate PairKept(causal: bool, left: Side, right: Side, maskMod: bool, q: int, k: int, i: int, j: int) {
    ResolvedKeeps(ResolvedWindow(causal, left, right, maskMod), k - q, i, j)
    <==> CallerKeeps(causal, left, right, k - q, i, j)
  }

  /** Resolving keeps the mask on a q-by-k matrix. */
  ghost predicate MaskKept(causal: bool, left: Side, right: Side, maskMod: bool, q: int, k: int) {
    forall i, j | 0 <= i < q && 0 <= j < k :: PairKept(causal, left, right, maskMod, q, k, i, j)
  }

  /** The caller's settings exclude no pair of a q-by-k matrix. */
  predicate WindowIsFull(causal: bool, left: Side, right: Side, q: int, k: int) {
    && (left.Within? ==> left.width >= k - 1)
    && (if causal then q <= 1 else right.Within? ==> right.width >= q - 1)
  }

  /** The limits of the keys that query 0 sees, when causal is a window that ends at 0. */
  function RightLimit(r: Resolved): Side { if r.causal then Within(0) else if r.local then r.right else Unbounded }

  function LeftLimit(r: Resolved): Side { if r.local then r.left else Unbounded }

  /** The keys of query 0 tell the limits. */
  lemma LimitsAreKept(r: Resolved, r': Resolved)
    requires Canonical(r) && Canonical(r')
    requires forall j :: ResolvedKeeps(r, 0, 0, j) <==> ResolvedKeeps(r', 0, 0, j)
    ensures RightLimit(r).Within? ==> RightLimit(r') == RightLimit(r)
    ensures LeftLimit(r).Within? ==> LeftLimit(r') == LeftLimit(r)
  {
    if RightLimit(r).Within? {
      var j := RightLimit(r).width;
      assert ResolvedKeeps(r, 0, 0, j) && !ResolvedKeeps(r, 0, 0, j + 1);
    }
    if LeftLimit(r).Within? {
      var j := 0 - LeftLimit(r).width;
      assert ResolvedKeeps(r, 0, 0, j) && !ResolvedKeeps(r, 0, 0, j - 1);
    }
  }

  /** Only one canonical form keeps a given mask. */
  lemma CanonicalIsUnique(r: Resolved, r': Resolved)
    requires Canonical(r) && Canonical(r')
    requires forall off, i, j :: ResolvedKeeps(r, off, i, j) <==> ResolvedKeeps(r', off, i, j)
    ensures r == r'
  {
    LimitsAreKept(r, r');
    LimitsAreKept(r', r);
  }

  /** Without a mask_mod the result is canonical, so it is the one canonical form of the mask it
      keeps: the caller's, or causal or full attention where the window's sides cross.  With a
      mask_mod both flags are off and the sides pass through. */
  lemma ResolvedIsCanonical(causal: bool, left: Side, right: Side, maskMod: bool, off: int, i: int, j: int)
    ensures var r := ResolvedWindow(causal, left, right, maskMod);
            if maskMod then !r.causal && !r.local && r.left == left && r.right == right
            else
              && Canonical(r)
              && (ResolvedKeeps(r, off, i, j) <==>
                    if CrossedWindow(causal, left, right) then causal ==> j <= i + off
                    else CallerKeeps(causal, left, right, off, i, j))
  {
  }

  /** Without a mask_mod, resolving keeps the mask exactly when the window's two sides do not
      cross: a crossed window admits nothing, but is resolved to plain causal or to full
      attention.  With a mask_mod the causal flag and the window are dropped, which keeps the
      mask exactly when they exclude nothing. */
  lemma ResolvePreservesMaskIff(causal: bool, left: Side, right: Side, maskMod: bool, q: int, k: int)
    requires q >= 1 && k >= 1
    ensures MaskKept(causal, left, right, maskMod, q, k)
            <==> if maskMod then WindowIsFull(causal, left, right, q, k) else !CrossedWindow(causal, left, right)
  {
    if maskMod {
      if !PairKept(causal, left, right, maskMod, q, k, q - 1, 0) { return; }
      if !PairKept(causal, left, right, maskMod, q, k, 0, k - 1) { return; }
    } else if CrossedWindow(causal, left, right) {
      assert !PairKept(causal, left, right, maskMod, q, k, q - 1, 0);
    }
  }

  /** The same over all lengths. */
  lemma ResolvePreservesEveryMaskIff(causal: bool, left: Side, right: Side, maskMod: bool)
    ensures (forall q, k | q >= 1 && k >= 1 :: MaskKept(causal, left, right, maskMod, q, k))
            <==> if maskMod then !causal && left.Unbounded? && right.Unbounded? else !CrossedWindow(causal, left, right)
  {
    forall q, k | q >= 1 && k >= 1
      ensures MaskKept(causal, left, right, maskMod, q, k)
              <==> if maskMod then WindowIsFull(causal, left, right, q, k) else !CrossedWindow(causal, left, right)
    {
      ResolvePreservesMaskIff(causal, left, right, maskMod, q, k);
    }
    var q := if right.Within? then Max(2, right.width + 2) else 2;
    var k := if left.Within? then Max(2, left.width + 2) else 2;
    assert WindowIsFull(causal, left, right, q, k) <==> !causal && left.Unbounded? && right.Unbounded?;
    if !MaskKept(causal, left, right, maskMod, q, k) { assert q >= 1 && k >= 1; }
  }

  /** One such call: left = -3, right = 1, not causal.  No pair is inside the window, yet every
      pair is attended to. */
  lemma CrossedWindowExample(off: int, i: int, j: int)
    ensures ResolvedKeeps(ResolvedWindow(false, Within(-3), Within(1), false), off, i, j)
    ensures !CallerKeeps(false, Within(-3), Within(1), off, i, j)
  {
  }

  /** The forward resolves with the caller's mask_mod and the backward without it.  With a
      mask_mod they pick the same flags exactly when the backward's are off as well. */
  lemma PassesResolveAlikeIff(causal: bool, left: Side, right: Side)
    ensures var forward := ResolvedWindow(causal, left, right, true);
            var backward := ResolvedWindow(causal, left, right, false);
            (forward.causal == backward.causal && forward.local == backward.local)
            <==> !causal && (CrossedWindow(causal, left, right) || (left.Unbounded? && right.Unbounded?))
  {
  }

  /** One such call: causal with a mask_mod.  The forward may attend to key 1 from query 0 of a
      2-by-2 matrix, the backward may not. */
  lemma DroppedCausalExample()
    ensures ResolvedKeeps(ResolvedWindow(true, Unbounded, Unbounded, true), 0, 0, 1)
    ensures !ResolvedKeeps(ResolvedWindow(true, Unbounded, Unbounded, false), 0, 0, 1)
    ensures !CallerKeeps(true, Unbounded, Unbounded, 0, 0, 1)
  {
  }
}

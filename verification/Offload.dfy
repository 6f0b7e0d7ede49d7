// Layer placement: crates/hivebear-inference/src/offload.rs.
module Offload {
  import opened Wrappers
  import opened Text

  // The parts of a hardware profile the placement reads; ram is the available RAM after the 0.85
  // factor, rounded down.
  datatype Profile = Profile(gpuVram: seq<nat>, ram: nat)

  datatype OffloadConfig = OffloadConfig(
    gpuLayers: nat,
    cpuLayers: nat,
    diskMmap: bool,
    meshLayers: Option<nat>)

  function Min(a: nat, b: nat): nat {
    if a <= b then a else b
  }

  // saturating_sub
  function Minus(a: nat, b: nat): nat {
    if a >= b then a - b else 0
  }

  // Iterator::sum over u64 wraps in a release build.
  function WrappingSum(items: seq<nat>): nat {
    if items == [] then 0 else (items[0] + WrappingSum(items[1..])) % U64
  }

  function KvOverhead(contextLength: nat): nat {
    contextLength * 256 * 1024
  }

  function UsableVram(profile: Profile, contextLength: nat): nat {
    Minus(WrappingSum(profile.gpuVram), KvOverhead(contextLength))
  }

  function BytesPerLayer(modelSize: nat, numLayers: nat): nat {
    if numLayers == 0 then modelSize else modelSize / numLayers
  }

  // `as u32`
  function Truncate(n: nat): nat {
    n % U32
  }

  function MeshLayers(config: OffloadConfig): nat {
    if config.meshLayers.Some? then config.meshLayers.value else 0
  }

  // checked_div: no quotient for layers of no size.
  function CheckedDiv(bytes: nat, perLayer: nat): Option<nat> {
    if perLayer == 0 then None else Some(Quotient(bytes, perLayer))
  }

  function Quotient(bytes: nat, perLayer: nat): nat
    requires perLayer > 0
  {
    bytes / perLayer
  }

  function SizeOf(layers: nat, perLayer: nat): nat {
    layers * perLayer
  }

  // Layers of the given size that fit in `bytes`, when the quotient is not truncated.
  function Fit(bytes: nat, perLayer: nat, limit: nat): nat {
    if perLayer == 0 then limit else Min(Quotient(bytes, perLayer), limit)
  }

  // calculate_offload_with_mesh, tier by tier on the remaining layers.
  method CalculateOffloadWithMesh(modelSize: nat, numLayers: nat, profile: Profile, contextLength: nat,
                                  meshCapacity: Option<nat>) returns (config: OffloadConfig)
    requires numLayers < U32
    ensures config == Placement(modelSize, numLayers, profile, contextLength, meshCapacity)
  {
    hide Quotient, Truncate, BytesPerLayer, KvOverhead;
    var totalVram := WrappingSum(profile.gpuVram);
    if totalVram == 0 && meshCapacity.None? {
      return OffloadConfig(0, numLayers, false, None);
    }
    var usableVram := Minus(totalVram, KvOverhead(contextLength));
    var perLayer := BytesPerLayer(modelSize, numLayers);
    var quotient := CheckedDiv(usableVram, perLayer);
    var gpuLayers := if quotient.Some? then Min(quotient.value, numLayers) else numLayers;
    var remaining := Minus(numLayers, gpuLayers);
    quotient := CheckedDiv(profile.ram, perLayer);
    var cpuLayers := if quotient.Some? then Min(Truncate(quotient.value), remaining) else remaining;
    remaining := Minus(remaining, cpuLayers);
    var meshLayers: Option<nat> := None;
    if remaining > 0 && meshCapacity.Some? {
      quotient := CheckedDiv(meshCapacity.value, perLayer);
      var fit := if quotient.Some? then Truncate(quotient.value) else remaining;
      var share := Min(fit, remaining);
      remaining := Minus(remaining, share);
      if share > 0 {
        meshLayers := Some(share);
      }
    }
    config := OffloadConfig(gpuLayers, cpuLayers, remaining > 0, meshLayers);
  }

  method CalculateOffload(modelSize: nat, numLayers: nat, profile: Profile, contextLength: nat)
    returns (config: OffloadConfig)
    requires numLayers < U32
    ensures config == Placement(modelSize, numLayers, profile, contextLength, None)
  {
    config := CalculateOffloadWithMesh(modelSize, numLayers, profile, contextLength, None);
  }

  // The placement as a function of its inputs.
  function Placement(modelSize: nat, numLayers: nat, profile: Profile, contextLength: nat,
                     meshCapacity: Option<nat>): OffloadConfig
  {
    if WrappingSum(profile.gpuVram) == 0 && meshCapacity.None? then OffloadConfig(0, numLayers, false, None)
    else
      var perLayer := BytesPerLayer(modelSize, numLayers);
      var gpu := Fit(UsableVram(profile, contextLength), perLayer, numLayers);
      var cpu := CastFit(profile.ram, perLayer, numLayers - gpu);
      var rest := numLayers - gpu - cpu;
      var mesh := if meshCapacity.Some? then CastFit(meshCapacity.value, perLayer, rest) else 0;
      OffloadConfig(gpu, cpu, rest - mesh > 0, if mesh > 0 then Some(mesh) else None)
  }

  // As Fit, with the quotient cast to 32 bits first.
  function CastFit(bytes: nat, perLayer: nat, limit: nat): (n: nat)
    ensures n <= limit
  {
    if perLayer == 0 then limit else Min(Truncate(Quotient(bytes, perLayer)), limit)
  }

  // ---------------------------------------------------------------- conservation

  // No layer is placed twice or invented: what is not placed is left over, and the disk flag says
  // exactly whether something is.
  lemma LayersAreConserved(modelSize: nat, numLayers: nat, profile: Profile, contextLength: nat, mesh: Option<nat>)
    ensures var c := Placement(modelSize, numLayers, profile, contextLength, mesh);
            && c.gpuLayers + c.cpuLayers + MeshLayers(c) <= numLayers
            && (c.gpuLayers + c.cpuLayers + MeshLayers(c) == numLayers <==> !c.diskMmap)
            && (mesh.None? ==> c.meshLayers.None?) && c.meshLayers != Some(0)
  {
  }

  // ---------------------------------------------------------------- the quantities

  // The memory of several GPUs is added up, modulo 2^64.
  lemma {:induction false} SumOfParts(a: seq<nat>, b: seq<nat>)
    ensures WrappingSum(a + b) == (WrappingSum(a) + WrappingSum(b)) % 0x1_0000_0000_0000_0000
    ensures forall x :: WrappingSum([x]) == x % 0x1_0000_0000_0000_0000
    ensures WrappingSum(a) < 0x1_0000_0000_0000_0000
  {
    forall x: nat ensures WrappingSum([x]) == x % 0x1_0000_0000_0000_0000 {
      assert [x][1..] == [];
    }
    if a == [] {
      assert a + b == b;
      SumBelow(b);
    } else {
      assert (a + b)[1..] == a[1..] + b;
      SumOfParts(a[1..], b);
      ModSum(a[0], WrappingSum(a[1..]), WrappingSum(b));
    }
  }

  lemma SumBelow(b: seq<nat>)
    ensures WrappingSum(b) < U64
  {
  }

  lemma ModSum(x: nat, y: nat, z: nat)
    ensures (x + (y + z) % U64) % U64 == ((x + y) % U64 + z) % U64
  {
  }

  // 256 KiB of cache for each token of context; a model in equal layers, their size rounded down.
  lemma Amounts(modelSize: nat, numLayers: nat, contextLength: nat)
    ensures KvOverhead(contextLength) == 262_144 * contextLength
    ensures BytesPerLayer(modelSize, 0) == modelSize
    ensures var b := BytesPerLayer(modelSize, numLayers);
            numLayers > 0 ==> b * numLayers <= modelSize < b * numLayers + numLayers
  {
    if numLayers > 0 {
      assert modelSize == (modelSize / numLayers) * numLayers + modelSize % numLayers;
    }
  }

  // 2 GPUs of 6 and 2 GiB, 4 GiB of RAM and a mesh of 5 GiB, for 32 layers of 1 GiB each and a context of
  // 4096 tokens, which takes 1 GiB: 7 layers go to the GPUs, 4 to the CPU, 5 to the mesh, 16 to disk.
  lemma WorkedExample()
    ensures var gib := 1_073_741_824;
            Placement(32 * gib, 32, Profile([6 * gib, 2 * gib], 4 * gib), 4096, Some(5 * gib))
            == OffloadConfig(7, 4, true, Some(5))
  {
    var gib := 1_073_741_824;
    var vram := [6 * gib, 2 * gib];
    assert vram[1..] == [2 * gib] && [2 * gib][1..] == [];
    assert WrappingSum([2 * gib]) == (2 * gib + WrappingSum([])) % U64 == 2 * gib;
    assert WrappingSum(vram) == (6 * gib + 2 * gib) % U64 == 8 * gib;
    assert Quotient(7 * gib, gib) == 7 && Quotient(4 * gib, gib) == 4 && Quotient(5 * gib, gib) == 5;
  }

  // Without layers nothing is placed; a model without a size is placed as a whole on the first tier.
  lemma NoLayersNoSize(profile: Profile, contextLength: nat, numLayers: nat)
    requires profile.gpuVram == [1]
    ensures Placement(1, 0, profile, contextLength, None) == OffloadConfig(0, 0, false, None)
    ensures Placement(0, numLayers, profile, contextLength, None) == OffloadConfig(numLayers, 0, false, None)
  {
    assert profile.gpuVram[1..] == [];
    assert WrappingSum(profile.gpuVram) == (1 + WrappingSum([])) % U64 == 1;
    assert numLayers > 0 ==> 0 / numLayers == 0;
  }

  // ---------------------------------------------------------------- feasibility

  // Layers per tier.
  datatype Split = Split(gpu: nat, cpu: nat, mesh: nat)

  function SplitOf(c: OffloadConfig): Split {
    Split(c.gpuLayers, c.cpuLayers, MeshLayers(c))
  }

  // Each tier's layers fit its memory; a non-zero GPU share also leaves room for the KV cache.
  predicate Feasible(s: Split, modelSize: nat, numLayers: nat, profile: Profile, contextLength: nat,
                     mesh: Option<nat>)
  {
    var perLayer := BytesPerLayer(modelSize, numLayers);
    && s.gpu + s.cpu + s.mesh <= numLayers
    && (s.gpu > 0 ==> SizeOf(s.gpu, perLayer) + KvOverhead(contextLength) <= WrappingSum(profile.gpuVram))
    && SizeOf(s.cpu, perLayer) <= profile.ram
    && SizeOf(s.mesh, perLayer) <= (if mesh.Some? then mesh.value else 0)
    && (s.mesh > 0 ==> mesh.Some?)
  }

  lemma SizeIsMonotone(a: nat, b: nat, d: nat)
    requires a <= b
    ensures a * d <= b * d
  {
    assert b * d - a * d == (b - a) * d >= 0;
  }

  lemma QuotientFits(n: nat, bytes: nat, d: nat)
    requires d > 0
    ensures SizeOf(n, d) <= bytes <==> n <= Quotient(bytes, d)
  {
    var q := bytes / d;
    assert q * d <= bytes < q * d + d;
    if n <= q {
      SizeIsMonotone(n, q, d);
    } else {
      SizeIsMonotone(q + 1, n, d);
      assert (q + 1) * d == q * d + d;
    }
  }

  lemma SmallSizes(n: nat, d: nat)
    requires d > 0
    ensures SizeOf(0, d) == 0 && (n > 0 ==> SizeOf(n, d) > 0)
  {
    if n > 0 {
      SizeIsMonotone(1, n, d);
    }
  }

  // Inputs that reach the tiers, with layers that take up memory.
  predicate Tiered(modelSize: nat, numLayers: nat, profile: Profile, mesh: Option<nat>) {
    (WrappingSum(profile.gpuVram) > 0 || mesh.Some?) && BytesPerLayer(modelSize, numLayers) > 0
  }

  // The placement is always feasible.
  lemma PlacementIsFeasible(modelSize: nat, numLayers: nat, profile: Profile, contextLength: nat, mesh: Option<nat>)
    requires Tiered(modelSize, numLayers, profile, mesh)
    ensures Feasible(SplitOf(Placement(modelSize, numLayers, profile, contextLength, mesh)),
                     modelSize, numLayers, profile, contextLength, mesh)
  {
    var c := Placement(modelSize, numLayers, profile, contextLength, mesh);
    var d := BytesPerLayer(modelSize, numLayers);
    hide SizeOf, Quotient, BytesPerLayer, KvOverhead, Truncate;
    QuotientFits(c.gpuLayers, UsableVram(profile, contextLength), d);
    QuotientFits(c.cpuLayers, profile.ram, d);
    TruncateShrinks(Quotient(profile.ram, d));
    if mesh.Some? {
      QuotientFits(MeshLayers(c), mesh.value, d);
      TruncateShrinks(Quotient(mesh.value, d));
    }
    SmallSizes(c.gpuLayers, d);
  }

  lemma TruncateShrinks(n: nat)
    ensures Truncate(n) <= n && (n < U32 ==> Truncate(n) == n)
  {
  }

  // Without GPU and mesh everything goes to the CPU, whether or not it fits there.
  lemma CpuOnlyFitsIff(modelSize: nat, numLayers: nat, profile: Profile, contextLength: nat)
    requires WrappingSum(profile.gpuVram) == 0
    ensures var c := Placement(modelSize, numLayers, profile, contextLength, None);
            && !c.diskMmap
            && (Feasible(SplitOf(c), modelSize, numLayers, profile, contextLength, None)
                <==> SizeOf(numLayers, BytesPerLayer(modelSize, numLayers)) <= profile.ram)
  {
    hide BytesPerLayer;
    assert SizeOf(0, BytesPerLayer(modelSize, numLayers)) == 0;
  }

  // A model of 10 bytes goes to 5 bytes of RAM.
  lemma CpuOnlyOverflows()
    ensures var profile := Profile([], 5);
            && Placement(10, 1, profile, 0, None) == OffloadConfig(0, 1, false, None)
            && !Feasible(Split(0, 1, 0), 10, 1, profile, 0, None)
  {
    CpuOnlyFitsIff(10, 1, Profile([], 5), 0);
  }

  // ---------------------------------------------------------------- optimality

  // Casting a quotient to 32 bits loses nothing that `limit` layers need: it fits, or what the cast
  // leaves of it still covers them.
  predicate KeepsRoom(bytes: nat, perLayer: nat, limit: nat) {
    perLayer == 0 || Quotient(bytes, perLayer) < U32 || limit <= Truncate(Quotient(bytes, perLayer))
  }

  lemma KeepsRoomIff(bytes: nat, perLayer: nat, limit: nat)
    requires limit < U32
    ensures KeepsRoom(bytes, perLayer, limit) <==> CastFit(bytes, perLayer, limit) == Fit(bytes, perLayer, limit)
  {
    hide Quotient, Truncate;
    if perLayer > 0 {
      TruncateShrinks(Quotient(bytes, perLayer));
    }
  }

  // The RAM quotient against the layers the GPU leaves, the mesh quotient against those the CPU leaves.
  predicate CastsAreHarmless(modelSize: nat, numLayers: nat, profile: Profile, contextLength: nat, mesh: Option<nat>) {
    var d := BytesPerLayer(modelSize, numLayers);
    var afterGpu := Minus(numLayers, Fit(UsableVram(profile, contextLength), d, numLayers));
    && KeepsRoom(profile.ram, d, afterGpu)
    && (mesh.Some? ==> KeepsRoom(mesh.value, d, Minus(afterGpu, Fit(profile.ram, d, afterGpu))))
  }

  lemma SmallQuotientsAreHarmless(modelSize: nat, numLayers: nat, profile: Profile, contextLength: nat,
                                  mesh: Option<nat>)
    requires Tiered(modelSize, numLayers, profile, mesh)
    requires var d := BytesPerLayer(modelSize, numLayers);
             Quotient(profile.ram, d) < U32 && (mesh.Some? ==> Quotient(mesh.value, d) < U32)
    ensures CastsAreHarmless(modelSize, numLayers, profile, contextLength, mesh)
  {
  }

  // Harmless casts make each tier take all that fits.
  lemma CastsAreHarmlessIff(modelSize: nat, numLayers: nat, profile: Profile, contextLength: nat, mesh: Option<nat>)
    requires Tiered(modelSize, numLayers, profile, mesh) && numLayers < U32
    ensures var d := BytesPerLayer(modelSize, numLayers);
            var c := Placement(modelSize, numLayers, profile, contextLength, mesh);
            var afterGpu := Minus(numLayers, c.gpuLayers);
            CastsAreHarmless(modelSize, numLayers, profile, contextLength, mesh)
            <==> && c.cpuLayers == Fit(profile.ram, d, afterGpu)
                 && (mesh.Some? ==> MeshLayers(c) == Fit(mesh.value, d, Minus(afterGpu, c.cpuLayers)))
  {
    hide Quotient, Truncate, BytesPerLayer, KvOverhead, KeepsRoom;
    var d := BytesPerLayer(modelSize, numLayers);
    var afterGpu := Minus(numLayers, Fit(UsableVram(profile, contextLength), d, numLayers));
    KeepsRoomIff(profile.ram, d, afterGpu);
    if mesh.Some? {
      KeepsRoomIff(mesh.value, d, Minus(afterGpu, Fit(profile.ram, d, afterGpu)));
    }
  }

  function Placed(s: Split): nat {
    s.gpu + s.cpu + s.mesh
  }

  // No feasible split puts more layers on the GPU; and if the casts lose nothing, none leaves fewer
  // layers over, and none with as many on the GPU puts more on the CPU: the placement is the best
  // split tier by tier, and in total.
  lemma GreedyIsOptimal(modelSize: nat, numLayers: nat, profile: Profile, contextLength: nat, mesh: Option<nat>,
                        s: Split)
    requires Tiered(modelSize, numLayers, profile, mesh) && numLayers < U32
    requires Feasible(s, modelSize, numLayers, profile, contextLength, mesh)
    ensures var c := Placement(modelSize, numLayers, profile, contextLength, mesh);
            && s.gpu <= c.gpuLayers
            && (CastsAreHarmless(modelSize, numLayers, profile, contextLength, mesh) ==>
                  && Placed(s) <= Placed(SplitOf(c))
                  && (s.gpu == c.gpuLayers ==> s.cpu <= c.cpuLayers))
  {
    hide SizeOf, Quotient, BytesPerLayer, KvOverhead, Truncate, CastsAreHarmless;
    CastsAreHarmlessIff(modelSize, numLayers, profile, contextLength, mesh);
    var d := BytesPerLayer(modelSize, numLayers);
    if s.gpu > 0 {
      SmallSizes(s.gpu, d);
    }
    QuotientFits(s.gpu, UsableVram(profile, contextLength), d);
    QuotientFits(s.cpu, profile.ram, d);
    if mesh.Some? {
      QuotientFits(s.mesh, mesh.value, d);
    }
  }

  // The tiers, with the quotients as cast, have room for all layers.
  predicate RoomForAll(modelSize: nat, numLayers: nat, profile: Profile, contextLength: nat, mesh: Option<nat>)
    requires Tiered(modelSize, numLayers, profile, mesh)
  {
    var d := BytesPerLayer(modelSize, numLayers);
    numLayers <= Quotient(UsableVram(profile, contextLength), d)
                 + Truncate(Quotient(profile.ram, d))
                 + (if mesh.Some? then Truncate(Quotient(mesh.value, d)) else 0)
  }

  // Disk is used exactly when they have not.
  lemma DiskIffNoRoom(modelSize: nat, numLayers: nat, profile: Profile, contextLength: nat, mesh: Option<nat>)
    requires Tiered(modelSize, numLayers, profile, mesh)
    ensures Placement(modelSize, numLayers, profile, contextLength, mesh).diskMmap
            <==> !RoomForAll(modelSize, numLayers, profile, contextLength, mesh)
  {
    hide Quotient, BytesPerLayer, UsableVram, Truncate;
  }

  // The placement leaves fewest layers over exactly when the tiers have room for all, or the casts
  // lose nothing: a truncated quotient with layers left over wastes room.
  lemma OptimalIff(modelSize: nat, numLayers: nat, profile: Profile, contextLength: nat, mesh: Option<nat>)
    requires Tiered(modelSize, numLayers, profile, mesh) && numLayers < U32
    ensures var c := Placement(modelSize, numLayers, profile, contextLength, mesh);
            (forall s :: Feasible(s, modelSize, numLayers, profile, contextLength, mesh)
                ==> Placed(s) <= Placed(SplitOf(c)))
            <==> || RoomForAll(modelSize, numLayers, profile, contextLength, mesh)
                 || CastsAreHarmless(modelSize, numLayers, profile, contextLength, mesh)
  {
    hide CastsAreHarmless, RoomForAll;
    var c := Placement(modelSize, numLayers, profile, contextLength, mesh);
    DiskIffNoRoom(modelSize, numLayers, profile, contextLength, mesh);
    if !c.diskMmap || CastsAreHarmless(modelSize, numLayers, profile, contextLength, mesh) {
      forall s | Feasible(s, modelSize, numLayers, profile, contextLength, mesh)
        ensures Placed(s) <= Placed(SplitOf(c))
      {
        GreedyIsOptimal(modelSize, numLayers, profile, contextLength, mesh, s);
      }
    } else {
      var better := OneMoreLayer(modelSize, numLayers, profile, contextLength, mesh);
      assert Feasible(better, modelSize, numLayers, profile, contextLength, mesh);
    }
  }

  // Ten layers of one byte, one byte of VRAM and 4 GiB of RAM: the RAM quotient is cast to 0, nine
  // layers go to disk, and all nine would have fit the RAM.
  lemma CastLosesNineLayers()
    ensures var profile := Profile([1], U32);
            && Placement(10, 10, profile, 0, None) == OffloadConfig(1, 0, true, None)
            && Feasible(Split(1, 9, 0), 10, 10, profile, 0, None)
  {
    assert WrappingSum([1]) == 1 by { assert [1][1..] == []; }
    assert Truncate(U32) == 0;
  }

  lemma OneMoreLayer(modelSize: nat, numLayers: nat, profile: Profile, contextLength: nat, mesh: Option<nat>)
    returns (better: Split)
    requires Tiered(modelSize, numLayers, profile, mesh) && numLayers < U32
    requires !CastsAreHarmless(modelSize, numLayers, profile, contextLength, mesh)
    requires Placement(modelSize, numLayers, profile, contextLength, mesh).diskMmap
    ensures Feasible(better, modelSize, numLayers, profile, contextLength, mesh)
    ensures Placed(better) == Placed(SplitOf(Placement(modelSize, numLayers, profile, contextLength, mesh))) + 1
  {
    hide SizeOf, Quotient, BytesPerLayer, KvOverhead, Truncate, CastsAreHarmless;
    CastsAreHarmlessIff(modelSize, numLayers, profile, contextLength, mesh);
    PlacementIsFeasible(modelSize, numLayers, profile, contextLength, mesh);
    var d := BytesPerLayer(modelSize, numLayers);
    var c := Placement(modelSize, numLayers, profile, contextLength, mesh);
    var afterGpu := Minus(numLayers, c.gpuLayers);
    TruncateShrinks(Quotient(profile.ram, d));
    if mesh.Some? {
      TruncateShrinks(Quotient(mesh.value, d));
    }
    if c.cpuLayers < Fit(profile.ram, d, afterGpu) {
      QuotientFits(c.cpuLayers + 1, profile.ram, d);
      better := SplitOf(c).(cpu := c.cpuLayers + 1);
    } else {
      QuotientFits(MeshLayers(c) + 1, mesh.value, d);
      better := SplitOf(c).(mesh := MeshLayers(c) + 1);
    }
  }
}

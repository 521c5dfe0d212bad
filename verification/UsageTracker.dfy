/** src/dawn_native/PassResourceUsageTracker and ValidatePassResourceUsage: the usage of a whole texture
    as a fast path for the usages of its subresources. */
module UsageTracking {
  import opened PowersOfTwo
  import opened Wrappers

  type Id = nat
  /** A bit mask, as the set of the positions of its bits. */
  type Usage = set<nat>

  /** CopySrc, Sampled and the internal read-only storage bit. */
  const READONLY_TEXTURE_USAGES: Usage := {0, 2, 31}
  /** MapRead, CopySrc, Index, Vertex, Uniform and the internal read-only storage bit. */
  const READONLY_BUFFER_USAGES: Usage := {0, 2, 4, 5, 6, 31}

  datatype PassType = Render | Compute | RayTracing
  datatype Buffer = Buffer(id: Id, usage: Usage)
  datatype Texture = Texture(id: Id, mipLevels: nat, arrayLayers: nat, usage: Usage)
  datatype View = View(texture: Texture, baseMipLevel: nat, levelCount: nat, baseArrayLayer: nat, layerCount: nat)
  datatype PassTextureUsage = PassTextureUsage(usage: Usage, subresourceUsages: seq<Usage>)
  datatype Verdict = Valid | BufferMissingUsage | BufferConflict | TextureMissingUsage | TextureConflict

  /** Read-only usages may be combined; any other usage must be alone. */
  predicate Compatible(u: Usage, readOnly: Usage) {
    u <= readOnly || |u| <= 1
  }

  /** The usages of a buffer that only read: MapRead, CopySrc, Index, Vertex, Uniform, read-only storage. */
  predicate ReadsBuffer(bit: nat) {
    bit == 0 || bit == 2 || bit == 4 || bit == 5 || bit == 6 || bit == 31
  }

  /** Those of a texture: CopySrc, Sampled, read-only storage. */
  predicate ReadsTexture(bit: nat) {
    bit == 0 || bit == 2 || bit == 31
  }

  /** A single write or multiple reads: two different usages both read. */
  ghost predicate BufferUseOk(u: Usage) {
    forall a, b :: a in u && b in u && a != b ==> ReadsBuffer(a) && ReadsBuffer(b)
  }

  ghost predicate TextureUseOk(u: Usage) {
    forall a, b :: a in u && b in u && a != b ==> ReadsTexture(a) && ReadsTexture(b)
  }

  lemma CompatiblePairwise(u: Usage, readOnly: Usage)
    ensures Compatible(u, readOnly) <==> forall a, b :: a in u && b in u && a != b ==> a in readOnly && b in readOnly
  {
    if |u| <= 1 {
      forall a, b | a in u && b in u ensures a == b { SubsetSize({a, b}, u); }
    } else {
      forall a | a in u && (forall b :: b in u && a != b ==> a in readOnly) ensures a in readOnly {
        assert |u - {a}| == |u| - 1;
        var b := SomeElement(u - {a});
      }
    }
  }

  /** The masks say just that. */
  lemma CompatibleExactly(u: Usage)
    ensures Compatible(u, READONLY_BUFFER_USAGES) <==> BufferUseOk(u)
    ensures Compatible(u, READONLY_TEXTURE_USAGES) <==> TextureUseOk(u)
  {
    CompatiblePairwise(u, READONLY_BUFFER_USAGES);
    CompatiblePairwise(u, READONLY_TEXTURE_USAGES);
    assert forall b: nat :: b in READONLY_BUFFER_USAGES <==> ReadsBuffer(b);
    assert forall b: nat :: b in READONLY_TEXTURE_USAGES <==> ReadsTexture(b);
  }

  lemma CompatibleIsInherited(u: Usage, w: Usage, readOnly: Usage)
    requires u <= w && Compatible(w, readOnly)
    ensures Compatible(u, readOnly)
  {
    SubsetSize(u, w);
  }

  /** The union of the usages of all subresources. */
  function OrAll(s: seq<Usage>): (u: Usage) {
    if s == [] then {} else s[0] + OrAll(s[1..])
  }

  lemma {:induction false} EachInAll(s: seq<Usage>, k: nat)
    requires k < |s|
    ensures s[k] <= OrAll(s)
  {
    if k > 0 {
      EachInAll(s[1..], k - 1);
    }
  }

  lemma {:induction false} OrOne(s: seq<Usage>, k: nat, u: Usage)
    requires k < |s|
    ensures OrAll(s[k := s[k] + u]) == OrAll(s) + u
  {
    if k == 0 {
      assert s[0 := s[0] + u][1..] == s[1..];
    } else {
      OrOne(s[1..], k - 1, u);
      assert s[k := s[k] + u][1..] == s[1..][k - 1 := s[k] + u];
    }
  }

  lemma {:induction false} OrPairwise(s: seq<Usage>, t: seq<Usage>, r: seq<Usage>)
    requires |s| == |t| == |r| && forall k :: 0 <= k < |s| ==> r[k] == s[k] + t[k]
    ensures OrAll(r) == OrAll(s) + OrAll(t)
  {
    if s != [] {
      OrPairwise(s[1..], t[1..], r[1..]);
    }
  }

  function Nothing(n: nat): (s: seq<Usage>)
    ensures |s| == n && OrAll(s) == {} && forall k :: 0 <= k < n ==> s[k] == {}
  {
    if n == 0 then [] else [{}] + Nothing(n - 1)
  }

  /** Looking at every subresource. */
  predicate SubresourcesCompatible(t: PassTextureUsage) {
    forall k :: 0 <= k < |t.subresourceUsages| ==> Compatible(t.subresourceUsages[k], READONLY_TEXTURE_USAGES)
  }

  /** The fast path never overrules the subresources. */
  lemma FastPathAgrees(t: PassTextureUsage)
    requires t.usage == OrAll(t.subresourceUsages)
    ensures Compatible(t.usage, READONLY_TEXTURE_USAGES) ==> SubresourcesCompatible(t)
  {
    if Compatible(t.usage, READONLY_TEXTURE_USAGES) {
      forall k | 0 <= k < |t.subresourceUsages| ensures Compatible(t.subresourceUsages[k], READONLY_TEXTURE_USAGES) {
        EachInAll(t.subresourceUsages, k);
        CompatibleIsInherited(t.subresourceUsages[k], t.usage, READONLY_TEXTURE_USAGES);
      }
    }
  }

  function SubresourceCount(t: Texture): (n: nat) {
    Times(t.mipLevels, t.arrayLayers)
  }

  function SubresourceIndex(t: Texture, mipLevel: nat, arrayLayer: nat): (k: nat) {
    Times(t.mipLevels, arrayLayer) + mipLevel
  }

  lemma IndexInRange(t: Texture, mip: nat, layer: nat)
    requires mip < t.mipLevels && layer < t.arrayLayers
    ensures SubresourceIndex(t, mip, layer) < SubresourceCount(t)
  {
    TimesApart(t.mipLevels, layer, t.arrayLayers);
  }

  lemma IndexIsInjective(t: Texture, m1: nat, l1: nat, m2: nat, l2: nat)
    requires m1 < t.mipLevels && m2 < t.mipLevels && SubresourceIndex(t, m1, l1) == SubresourceIndex(t, m2, l2)
    ensures m1 == m2 && l1 == l2
  {
    if l1 < l2 {
      TimesApart(t.mipLevels, l1, l2);
    } else if l2 < l1 {
      TimesApart(t.mipLevels, l2, l1);
    }
  }

  /** Subresources are indexed layer by layer, and by mip level inside a layer. */
  lemma IndexOrder(t: Texture, m1: nat, l1: nat, m2: nat, l2: nat)
    requires m1 < t.mipLevels && m2 < t.mipLevels && l1 < t.arrayLayers && l2 < t.arrayLayers
    ensures SubresourceIndex(t, m1, l1) < SubresourceIndex(t, m2, l2) <==> l1 < l2 || (l1 == l2 && m1 < m2)
    ensures SubresourceIndex(t, m1, l1) < SubresourceCount(t) == t.mipLevels * t.arrayLayers
    ensures SubresourceIndex(t, 0, 0) == 0
  {
    IndexInRange(t, m1, l1);
    TimesIsProduct(t.mipLevels, t.arrayLayers);
    if l1 < l2 {
      TimesApart(t.mipLevels, l1, l2);
    } else if l2 < l1 {
      TimesApart(t.mipLevels, l2, l1);
    }
  }

  /** Views are validated to lie in their texture and to cover at least one subresource. */
  predicate ViewOk(v: View) {
    && v.levelCount >= 1 && v.baseMipLevel + v.levelCount <= v.texture.mipLevels
    && v.layerCount >= 1 && v.baseArrayLayer + v.layerCount <= v.texture.arrayLayers
  }

  predicate InView(v: View, mip: nat, layer: nat) {
    v.baseMipLevel <= mip < v.baseMipLevel + v.levelCount && v.baseArrayLayer <= layer < v.baseArrayLayer + v.layerCount
  }

  /** Whether the loops over layers and mip levels have passed subresource (m, l). */
  predicate Passed(v: View, layer: nat, mip: nat, m: nat, l: nat) {
    InView(v, m, l) && (l < layer || (l == layer && m < mip))
  }

  ghost predicate MarkedAt(v: View, s: seq<Usage>, r: seq<Usage>, u: Usage, layer: nat, mip: nat, m: nat, l: nat) {
    var k := SubresourceIndex(v.texture, m, l);
    k < |s| && k < |r| && r[k] == if Passed(v, layer, mip, m, l) then s[k] + u else s[k]
  }

  /** r is s with the usage added to exactly the subresources that the loops have passed. */
  ghost predicate MarkedUpTo(v: View, s: seq<Usage>, r: seq<Usage>, u: Usage, layer: nat, mip: nat) {
    && |s| == |r| == SubresourceCount(v.texture)
    && forall m, l {:trigger MarkedAt(v, s, r, u, layer, mip, m, l)} ::
         0 <= m < v.texture.mipLevels && 0 <= l < v.texture.arrayLayers ==> MarkedAt(v, s, r, u, layer, mip, m, l)
  }

  /** What a subresource is used as, as far as is tracked. */
  ghost function UsedAt(usages: map<Texture, PassTextureUsage>, t: Texture, m: nat, l: nat): (u: Usage) {
    var k := SubresourceIndex(t, m, l);
    if t in usages && k < |usages[t].subresourceUsages| then usages[t].subresourceUsages[k] else {}
  }

  /** Once the loops are through, exactly the subresources of the view are marked. */
  lemma AllMarked(v: View, s: seq<Usage>, u: Usage, before: map<Texture, PassTextureUsage>,
                  after: map<Texture, PassTextureUsage>)
    requires v.texture in after
    requires MarkedUpTo(v, s, after[v.texture].subresourceUsages, u, v.texture.arrayLayers, 0)
    requires if v.texture in before && before[v.texture].subresourceUsages != []
      then s == before[v.texture].subresourceUsages else s == Nothing(SubresourceCount(v.texture))
    ensures forall m, l {:trigger UsedAt(after, v.texture, m, l)} ::
      0 <= m < v.texture.mipLevels && 0 <= l < v.texture.arrayLayers ==>
        UsedAt(after, v.texture, m, l) == UsedAt(before, v.texture, m, l) + if InView(v, m, l) then u else {}
  {
    forall m, l | 0 <= m < v.texture.mipLevels && 0 <= l < v.texture.arrayLayers
      ensures UsedAt(after, v.texture, m, l) == UsedAt(before, v.texture, m, l) + if InView(v, m, l) then u else {}
    {
      assert MarkedAt(v, s, after[v.texture].subresourceUsages, u, v.texture.arrayLayers, 0, m, l);
      IndexInRange(v.texture, m, l);
    }
  }

  class PassResourceUsageTracker {
    const passType: PassType
    var bufferUsages: map<Buffer, Usage>
    var textureUsages: map<Texture, PassTextureUsage>

    /** The usage of a whole texture is the union of the usages of its subresources. */
    ghost predicate Exact()
      reads this
    {
      forall t :: t in textureUsages ==>
        |textureUsages[t].subresourceUsages| == SubresourceCount(t)
          && textureUsages[t].usage == OrAll(textureUsages[t].subresourceUsages)
    }

    constructor (passType: PassType)
      ensures Exact() && textureUsages == map[] && bufferUsages == map[] && this.passType == passType
    {
      this.passType := passType;
      bufferUsages, textureUsages := map[], map[];
    }

    /** What is tracked for a buffer; operator[] creates an empty entry. */
    function TrackedBuffer(buffer: Buffer): (r: Usage)
      reads this
    {
      if buffer in bufferUsages then bufferUsages[buffer] else {}
    }

    method BufferUsedAs(buffer: Buffer, usage: Usage)
      modifies this`bufferUsages
      ensures bufferUsages == old(bufferUsages)[buffer :=
        if buffer in old(bufferUsages) then old(bufferUsages)[buffer] + usage else usage]
    {
      assert {} + usage == usage;
      bufferUsages := bufferUsages[buffer := TrackedBuffer(buffer) + usage];
    }

    /** What is tracked for a texture; operator[] creates an empty entry. */
    function Tracked(t: Texture): (r: PassTextureUsage)
      reads this
    {
      if t in textureUsages then textureUsages[t] else PassTextureUsage({}, [])
    }

    function SubresourcesBefore(t: Texture): (s: seq<Usage>)
      reads this
    {
      if |Tracked(t).subresourceUsages| == 0 then Nothing(SubresourceCount(t)) else Tracked(t).subresourceUsages
    }

    method TextureViewUsedAs(view: View, usage: Usage)
      requires Exact() && ViewOk(view)
      modifies this`textureUsages
      ensures Exact() && view.texture in textureUsages
      ensures forall t :: t in old(textureUsages) && t != view.texture ==>
        t in textureUsages && textureUsages[t] == old(textureUsages)[t]
      ensures textureUsages.Keys == old(textureUsages).Keys + {view.texture}
      ensures textureUsages[view.texture].usage ==
        if view.texture in old(textureUsages) then old(textureUsages)[view.texture].usage + usage else usage
      ensures forall m, l {:trigger UsedAt(textureUsages, view.texture, m, l)} ::
        0 <= m < view.texture.mipLevels && 0 <= l < view.texture.arrayLayers ==>
          UsedAt(textureUsages, view.texture, m, l) ==
            UsedAt(old(textureUsages), view.texture, m, l) + if InView(view, m, l) then usage else {}
    {
      var texture := view.texture;
      var whole := Tracked(texture).usage + usage;
      var subs := SubresourcesBefore(texture);
      ghost var before := subs;
      ghost var touched := false;
      SizesAgree(texture);
      var arrayLayer := view.baseArrayLayer;
      StartMarking(view, before, usage);
      while arrayLayer < view.baseArrayLayer + view.layerCount
        invariant view.baseArrayLayer <= arrayLayer <= view.baseArrayLayer + view.layerCount
        invariant MarkedUpTo(view, before, subs, usage, arrayLayer, 0)
        invariant OrAll(subs) == if touched then OrAll(before) + usage else OrAll(before)
        invariant arrayLayer > view.baseArrayLayer ==> touched
        invariant textureUsages == old(textureUsages)
      {
        var mipLevel := view.baseMipLevel;
        SkipMips(view, before, subs, usage, arrayLayer);
        while mipLevel < view.baseMipLevel + view.levelCount
          invariant view.baseMipLevel <= mipLevel <= view.baseMipLevel + view.levelCount
          invariant MarkedUpTo(view, before, subs, usage, arrayLayer, mipLevel)
          invariant OrAll(subs) == if touched then OrAll(before) + usage else OrAll(before)
          invariant mipLevel > view.baseMipLevel || arrayLayer > view.baseArrayLayer ==> touched
          invariant textureUsages == old(textureUsages)
        {
          MarkOne(view, before, subs, usage, arrayLayer, mipLevel);
          var subresourceIndex := SubresourceIndex(texture, mipLevel, arrayLayer);
          OrOne(subs, subresourceIndex, usage);
          subs := subs[subresourceIndex := subs[subresourceIndex] + usage];
          touched := true;
          mipLevel := mipLevel + 1;
        }
        NextLayer(view, before, subs, usage, arrayLayer);
        arrayLayer := arrayLayer + 1;
      }
      LastLayer(view, before, subs, usage, arrayLayer);
      textureUsages := textureUsages[texture := PassTextureUsage(whole, subs)];
      AllMarked(view, before, usage, old(textureUsages), textureUsages);
    }

    lemma SizesAgree(t: Texture)
      requires Exact()
      ensures |SubresourcesBefore(t)| == SubresourceCount(t) && OrAll(SubresourcesBefore(t)) == Tracked(t).usage
    {
    }

    method AddTextureUsage(texture: Texture, textureUsage: PassTextureUsage)
      requires Exact() && |textureUsage.subresourceUsages| == SubresourceCount(texture)
      requires textureUsage.usage == OrAll(textureUsage.subresourceUsages)
      modifies this`textureUsages
      ensures Exact() && textureUsages.Keys == old(textureUsages).Keys + {texture}
      ensures forall t :: t in old(textureUsages) && t != texture ==> textureUsages[t] == old(textureUsages)[t]
      ensures texture in old(textureUsages) ==>
        && textureUsages[texture].usage == old(textureUsages)[texture].usage + textureUsage.usage
        && forall k :: 0 <= k < SubresourceCount(texture) ==>
          textureUsages[texture].subresourceUsages[k] ==
            old(textureUsages)[texture].subresourceUsages[k] + textureUsage.subresourceUsages[k]
      ensures texture !in old(textureUsages) ==> textureUsages[texture] == textureUsage
    {
      SizesAgree(texture);
      var pass := Tracked(texture);
      var whole := pass.usage + textureUsage.usage;
      var subs := textureUsage.subresourceUsages;
      if |pass.subresourceUsages| != 0 {
        subs := pass.subresourceUsages;
        var i := 0;
        while i < SubresourceCount(texture)
          invariant i <= |subs| == SubresourceCount(texture) == |pass.subresourceUsages|
          invariant forall k :: 0 <= k < i ==> subs[k] == pass.subresourceUsages[k] + textureUsage.subresourceUsages[k]
          invariant forall k :: i <= k < |subs| ==> subs[k] == pass.subresourceUsages[k]
        {
          subs := subs[i := subs[i] + textureUsage.subresourceUsages[i]];
          i := i + 1;
        }
      }
      OrPairwise(SubresourcesBefore(texture), textureUsage.subresourceUsages, subs);
      textureUsages := textureUsages[texture := PassTextureUsage(whole, subs)];
    }
  }

  /** The per-pass record: parallel vectors of resources and usages. */
  datatype PassResourceUsage = PassResourceUsage(passType: PassType,
                                                 buffers: seq<(Buffer, Usage)>,
                                                 textures: seq<(Texture, PassTextureUsage)>)

  /** Every texture of the record has all its subresources, and their union as its usage. */
  ghost predicate RecordExact(pass: PassResourceUsage) {
    forall i :: 0 <= i < |pass.textures| ==>
      && |pass.textures[i].1.subresourceUsages| == SubresourceCount(pass.textures[i].0)
      && pass.textures[i].1.usage == OrAll(pass.textures[i].1.subresourceUsages)
  }

  /** The pairs are those of the map, each once. */
  ghost predicate Lists<K, V>(pairs: seq<(K, V)>, m: map<K, V>) {
    && (forall i :: 0 <= i < |pairs| ==> pairs[i].0 in m && pairs[i].1 == m[pairs[i].0])
    && (forall k :: k in m ==> exists i :: 0 <= i < |pairs| && pairs[i].0 == k)
    && (forall i, j :: 0 <= i < j < |pairs| ==> pairs[i].0 != pairs[j].0)
  }

  /** A range-based for over a map. */
  method ListAll<K(==), V>(m: map<K, V>) returns (pairs: seq<(K, V)>)
    ensures Lists(pairs, m)
  {
    pairs := [];
    var left := m.Keys;
    while left != {}
      invariant left <= m.Keys && Lists(pairs, map k | k in m && k !in left :: m[k])
      decreases |left|
    {
      var k :| k in left;
      ghost var before, seen := pairs, (map x | x in m && x !in left :: m[x]);
      pairs := pairs + [(k, m[k])];
      left := left - {k};
      ListsMore(before, seen, k, m[k]);
      assert (map x | x in m && x !in left :: m[x]) == seen[k := m[k]];
    }
    assert (map k | k in m && k !in left :: m[k]) == m;
  }

  lemma ListsMore<K, V>(pairs: seq<(K, V)>, m: map<K, V>, k: K, v: V)
    requires Lists(pairs, m) && k !in m
    ensures Lists(pairs + [(k, v)], m[k := v])
  {
    var pairs', m' := pairs + [(k, v)], m[k := v];
    forall x | x in m' ensures exists i :: 0 <= i < |pairs'| && pairs'[i].0 == x {
      if x == k {
        assert pairs'[|pairs|].0 == k;
      } else {
        var i :| 0 <= i < |pairs| && pairs[i].0 == x;
        assert pairs'[i].0 == x;
      }
    }
  }

  /** Hand the tracked usages over as a record that lists each resource once, and start afresh. */
  method AcquireResourceUsage(tracker: PassResourceUsageTracker) returns (pass: PassResourceUsage)
    requires tracker.Exact()
    modifies tracker
    ensures pass.passType == tracker.passType && RecordExact(pass)
    ensures Lists(pass.buffers, old(tracker.bufferUsages)) && Lists(pass.textures, old(tracker.textureUsages))
    ensures tracker.bufferUsages == map[] && tracker.textureUsages == map[]
  {
    var buffers := ListAll(tracker.bufferUsages);
    var textures := ListAll(tracker.textureUsages);
    pass := PassResourceUsage(tracker.passType, buffers, textures);
    tracker.bufferUsages := map[];
    tracker.textureUsages := map[];
  }

  /** The buffer was created with the usages of the pass, and they go together. */
  ghost predicate BufferOk(pass: PassResourceUsage, i: nat)
    requires i < |pass.buffers|
  {
    pass.buffers[i].1 <= pass.buffers[i].0.usage && (pass.passType == Render ==> BufferUseOk(pass.buffers[i].1))
  }

  /** The simple definition: every subresource of a texture is used in an allowed and compatible way. */
  ghost predicate TextureOk(pass: PassResourceUsage, i: nat)
    requires i < |pass.textures|
  {
    var (texture, used) := pass.textures[i];
    forall k :: 0 <= k < |used.subresourceUsages| ==>
      && used.subresourceUsages[k] <= texture.usage
      && (pass.passType == Render ==> TextureUseOk(used.subresourceUsages[k]))
  }

  lemma {:induction false} AllAllowed(s: seq<Usage>, w: Usage)
    ensures OrAll(s) <= w <==> forall k :: 0 <= k < |s| ==> s[k] <= w
  {
    if s != [] {
      AllAllowed(s[1..], w);
      forall k | 0 < k < |s| ensures s[k] == s[1..][k - 1] { }
    }
  }

  ghost predicate PassUsageOk(pass: PassResourceUsage) {
    && (forall i :: 0 <= i < |pass.buffers| ==> BufferOk(pass, i))
    && (forall i :: 0 <= i < |pass.textures| ==> TextureOk(pass, i))
  }

  /** The validation accepts exactly the passes whose every buffer and subresource is used properly. */
  method ValidatePassResourceUsage(pass: PassResourceUsage) returns (v: Verdict)
    requires RecordExact(pass)
    ensures v == Valid <==> PassUsageOk(pass)
    ensures v == BufferMissingUsage ==>
      exists i :: 0 <= i < |pass.buffers| && !(pass.buffers[i].1 <= pass.buffers[i].0.usage)
    ensures v == BufferConflict ==>
      pass.passType == Render && exists i :: 0 <= i < |pass.buffers| && !BufferUseOk(pass.buffers[i].1)
    ensures v == TextureMissingUsage || v == TextureConflict ==>
      forall i :: 0 <= i < |pass.buffers| ==> BufferOk(pass, i)
  {
    var i := 0;
    while i < |pass.buffers|
      invariant i <= |pass.buffers| && forall j :: 0 <= j < i ==> BufferOk(pass, j)
    {
      var (buffer, usage) := pass.buffers[i];
      CompatibleExactly(usage);
      if !(usage <= buffer.usage) {
        assert !BufferOk(pass, i);
        return BufferMissingUsage;
      }
      var readOnly := usage <= READONLY_BUFFER_USAGES;
      var singleUse := |usage| <= 1;
      if pass.passType == Render && !readOnly && !singleUse {
        assert !BufferOk(pass, i);
        return BufferConflict;
      }
      i := i + 1;
    }
    i := 0;
    while i < |pass.textures|
      invariant i <= |pass.textures| && forall j :: 0 <= j < i ==> TextureOk(pass, j)
    {
      v := ValidateTexture(pass, i);
      if v != Valid {
        return v;
      }
      i := i + 1;
    }
    v := Valid;
  }

  method ValidateTexture(pass: PassResourceUsage, i: nat) returns (v: Verdict)
    requires RecordExact(pass) && i < |pass.textures|
    ensures v == Valid <==> TextureOk(pass, i)
    ensures v == Valid || v == TextureMissingUsage || v == TextureConflict
    ensures v == TextureMissingUsage <==>
      var (texture, used) := pass.textures[i];
      exists k :: 0 <= k < |used.subresourceUsages| && !(used.subresourceUsages[k] <= texture.usage)
  {
    var (texture, textureUsage) := pass.textures[i];
    var usage := textureUsage.usage;
    AllAllowed(textureUsage.subresourceUsages, texture.usage);
    if !(usage <= texture.usage) {
      return TextureMissingUsage;
    }
    // The usage of the whole texture is a fast path.
    FastPathAgrees(textureUsage);
    forall k | 0 <= k < |textureUsage.subresourceUsages|
      ensures Compatible(textureUsage.subresourceUsages[k], READONLY_TEXTURE_USAGES) <==>
        TextureUseOk(textureUsage.subresourceUsages[k])
    {
      CompatibleExactly(textureUsage.subresourceUsages[k]);
    }
    var readOnly := usage <= READONLY_TEXTURE_USAGES;
    var singleUse := |usage| <= 1;
    if pass.passType != Render || readOnly || singleUse {
      return Valid;
    }
    var k := 0;
    while k < |textureUsage.subresourceUsages|
      invariant k <= |textureUsage.subresourceUsages|
      invariant forall j :: 0 <= j < k ==> Compatible(textureUsage.subresourceUsages[j], READONLY_TEXTURE_USAGES)
    {
      var subresourceUsage := textureUsage.subresourceUsages[k];
      if !(subresourceUsage <= READONLY_TEXTURE_USAGES) && !(|subresourceUsage| <= 1) {
        return TextureConflict;
      }
      k := k + 1;
    }
    v := Valid;
  }

  lemma StartMarking(v: View, s: seq<Usage>, u: Usage)
    requires |s| == SubresourceCount(v.texture)
    ensures MarkedUpTo(v, s, s, u, v.baseArrayLayer, 0)
  {
    forall m, l | 0 <= m < v.texture.mipLevels && 0 <= l < v.texture.arrayLayers
      ensures MarkedAt(v, s, s, u, v.baseArrayLayer, 0, m, l)
    {
      IndexInRange(v.texture, m, l);
    }
  }

  lemma SkipMips(v: View, s: seq<Usage>, r: seq<Usage>, u: Usage, layer: nat)
    requires MarkedUpTo(v, s, r, u, layer, 0)
    ensures MarkedUpTo(v, s, r, u, layer, v.baseMipLevel)
  {
    forall m, l | 0 <= m < v.texture.mipLevels && 0 <= l < v.texture.arrayLayers
      ensures MarkedAt(v, s, r, u, layer, v.baseMipLevel, m, l)
    {
      assert MarkedAt(v, s, r, u, layer, 0, m, l);
    }
  }

  lemma MarkOne(v: View, s: seq<Usage>, r: seq<Usage>, u: Usage, layer: nat, mip: nat)
    requires ViewOk(v) && MarkedUpTo(v, s, r, u, layer, mip) && InView(v, mip, layer)
    ensures SubresourceIndex(v.texture, mip, layer) < |r|
    ensures var k := SubresourceIndex(v.texture, mip, layer); MarkedUpTo(v, s, r[k := r[k] + u], u, layer, mip + 1)
  {
    IndexInRange(v.texture, mip, layer);
    var k := SubresourceIndex(v.texture, mip, layer);
    var r', next := r[k := r[k] + u], mip + 1;
    forall m, l | 0 <= m < v.texture.mipLevels && 0 <= l < v.texture.arrayLayers
      ensures MarkedAt(v, s, r', u, layer, next, m, l)
    {
      assert MarkedAt(v, s, r, u, layer, mip, m, l);
      if SubresourceIndex(v.texture, m, l) == k { IndexIsInjective(v.texture, m, l, mip, layer); }
    }
  }

  lemma NextLayer(v: View, s: seq<Usage>, r: seq<Usage>, u: Usage, layer: nat)
    requires MarkedUpTo(v, s, r, u, layer, v.baseMipLevel + v.levelCount)
    ensures MarkedUpTo(v, s, r, u, layer + 1, 0)
  {
    var next := layer + 1;
    forall m, l | 0 <= m < v.texture.mipLevels && 0 <= l < v.texture.arrayLayers
      ensures MarkedAt(v, s, r, u, next, 0, m, l)
    {
      assert MarkedAt(v, s, r, u, layer, v.baseMipLevel + v.levelCount, m, l);
    }
  }

  lemma LastLayer(v: View, s: seq<Usage>, r: seq<Usage>, u: Usage, layer: nat)
    requires MarkedUpTo(v, s, r, u, layer, 0) && layer == v.baseArrayLayer + v.layerCount
    ensures MarkedUpTo(v, s, r, u, v.texture.arrayLayers, 0)
  {
    forall m, l | 0 <= m < v.texture.mipLevels && 0 <= l < v.texture.arrayLayers
      ensures MarkedAt(v, s, r, u, v.texture.arrayLayers, 0, m, l)
    {
      assert MarkedAt(v, s, r, u, layer, 0, m, l);
    }
  }
}

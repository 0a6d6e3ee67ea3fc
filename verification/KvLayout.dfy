/** Where a quantised chunk keeps the data and the scales of each layer's keys and values. */
module KvLayout {
  import opened Arithmetic

  datatype Config = Config(layers: nat, kvHeads: nat, headDim: nat, tokens: nat)

  /** The four regions of a key or value block, in the order they are laid out. */
  datatype Part = Data | Scale | ResidualData | ResidualScale

  function DataBytes(c: Config): nat {
    c.kvHeads * c.tokens * c.headDim / 2
  }

  function ScaleBytes(c: Config): nat {
    c.kvHeads * c.headDim * 4
  }

  function PerKv(c: Config): nat {
    2 * (DataBytes(c) + ScaleBytes(c))
  }

  function QuantizedChunkKvBytes(c: Config): nat {
    c.layers * (2 * PerKv(c))
  }

  function QuantizedKvOffsets(c: Config, layer: nat, isValue: bool): (nat, nat, nat, nat) {
    var base := layer * (2 * PerKv(c)) + if isValue then PerKv(c) else 0;
    (base, base + DataBytes(c), base + DataBytes(c) + ScaleBytes(c), base + 2 * DataBytes(c) + ScaleBytes(c))
  }

  function Start(c: Config, layer: nat, isValue: bool, part: Part): nat {
    var offsets := QuantizedKvOffsets(c, layer, isValue);
    match part
    case Data => offsets.0
    case Scale => offsets.1
    case ResidualData => offsets.2
    case ResidualScale => offsets.3
  }

  function Size(c: Config, part: Part): nat {
    if part.Data? || part.ResidualData? then DataBytes(c) else ScaleBytes(c)
  }

  /** The layer, tensor and region byte `b` of a chunk belongs to. */
  predicate Owns(c: Config, layer: nat, isValue: bool, part: Part, b: nat) {
    layer < c.layers && Start(c, layer, isValue, part) <= b < Start(c, layer, isValue, part) + Size(c, part)
  }

  /** The regions tile the chunk: every byte of it belongs to one region, and to no other. */
  lemma RegionsTileTheChunk(c: Config, b: nat)
    ensures b < QuantizedChunkKvBytes(c) <==> exists layer: nat, isValue, part :: Owns(c, layer, isValue, part, b)
    ensures forall l: nat, v, p, l': nat, v', p' :: Owns(c, l, v, p, b) && Owns(c, l', v', p', b) ==> l == l' && v == v' && p == p'
  {
    hide PerKv;
    forall l: nat, v, p | Owns(c, l, v, p, b)
      ensures l * (2 * PerKv(c)) <= b < l * (2 * PerKv(c)) + 2 * PerKv(c) <= QuantizedChunkKvBytes(c)
    {
      WithinLayer(c, l, v, p, b);
      MultiplesApart(l, c.layers, 2 * PerKv(c));
    }
    forall l: nat, v, p, l': nat, v', p' | Owns(c, l, v, p, b) && Owns(c, l', v', p', b) ensures l == l' && v == v' && p == p' {
      if l < l' {
        MultiplesApart(l, l', 2 * PerKv(c));
      } else if l' < l {
        MultiplesApart(l', l, 2 * PerKv(c));
      }
      SameLayerSameRegion(c, l, v, p, v', p', b);
    }
    if b < QuantizedChunkKvBytes(c) {
      var layer := FindLayer(c, b, c.layers);
      FindRegion(c, layer, b);
    }
  }

  lemma WithinLayer(c: Config, l: nat, v: bool, p: Part, b: nat)
    requires Owns(c, l, v, p, b)
    ensures l * (2 * PerKv(c)) <= b < l * (2 * PerKv(c)) + 2 * PerKv(c)
  {
  }

  lemma SameLayerSameRegion(c: Config, l: nat, v: bool, p: Part, v': bool, p': Part, b: nat)
    requires Owns(c, l, v, p, b) && Owns(c, l, v', p', b)
    ensures v == v' && p == p'
  {
    hide DataBytes, ScaleBytes;
  }

  lemma {:induction false} FindLayer(c: Config, b: nat, n: nat) returns (layer: nat)
    requires b < n * (2 * PerKv(c))
    ensures layer < n && layer * (2 * PerKv(c)) <= b < layer * (2 * PerKv(c)) + 2 * PerKv(c)
  {
    hide PerKv;
    assert n > 0 && n * (2 * PerKv(c)) == (n - 1) * (2 * PerKv(c)) + 2 * PerKv(c);
    if b < (n - 1) * (2 * PerKv(c)) {
      layer := FindLayer(c, b, n - 1);
    } else {
      layer := n - 1;
    }
  }

  lemma FindRegion(c: Config, layer: nat, b: nat)
    requires layer < c.layers && layer * (2 * PerKv(c)) <= b < layer * (2 * PerKv(c)) + 2 * PerKv(c)
    ensures exists isValue, part :: Owns(c, layer, isValue, part, b)
  {
    hide DataBytes, ScaleBytes;
    assert Owns(c, layer, false, Data, b) || Owns(c, layer, false, Scale, b)
        || Owns(c, layer, false, ResidualData, b) || Owns(c, layer, false, ResidualScale, b)
        || Owns(c, layer, true, Data, b) || Owns(c, layer, true, Scale, b)
        || Owns(c, layer, true, ResidualData, b) || Owns(c, layer, true, ResidualScale, b);
  }

  /**
   The order inside a chunk: layer by layer, keys before values, and in each of them data, scale,
   residual data and residual scale, every region starting where the one before it ends.
   */
  lemma RegionsAreInOrder(c: Config, layer: nat, isValue: bool)
    ensures Start(c, 0, false, Data) == 0
    ensures Start(c, layer, isValue, Scale) == Start(c, layer, isValue, Data) + c.kvHeads * c.tokens * c.headDim / 2
    ensures Start(c, layer, isValue, ResidualData) == Start(c, layer, isValue, Scale) + c.kvHeads * c.headDim * 4
    ensures Start(c, layer, isValue, ResidualScale) == Start(c, layer, isValue, ResidualData) + c.kvHeads * c.tokens * c.headDim / 2
    ensures Start(c, layer, true, Data) == Start(c, layer, false, ResidualScale) + c.kvHeads * c.headDim * 4
    ensures Start(c, layer + 1, false, Data) == Start(c, layer, true, ResidualScale) + c.kvHeads * c.headDim * 4
  {
    NextLayer(layer, 2 * PerKv(c));
  }

  lemma NextLayer(layer: nat, size: nat)
    ensures (layer + 1) * size == layer * size + size
  {
  }
}

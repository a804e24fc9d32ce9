/** What a compiled schema means: filling its plan with values gives a tree, its
    metadata is that tree's metadata, and its least payload is a tight bound. */
module SchemaMeaning {
  import opened Wire
  import opened Format
  import opened Semantics
  import opened Building
  import opened Schemas

  // -------------------------------------------------------------------- slots

  /** What the typed calls of a kind promise of a value beyond its width. */
  predicate KindElem(kind: ValueKind, raw: Bytes) {
    && (kind.KindString? ==> Utf8Valid(raw))
    && (kind.KindBool? ==> raw == [0] || raw == [1])
  }

  predicate KindElems(kind: ValueKind, v: seq<Bytes>) {
    forall i :: 0 <= i < |v| ==> KindElem(kind, v[i])
  }

  /** The values one plan entry can take. */
  predicate SlotFits(pointer64: bool, p: ValuePlan, v: seq<Bytes>) {
    && IsValue(p.kind)
    && ValidElems(KindEncoding(pointer64, p.kind), v) && KindElems(p.kind, v)
    && (match p.arrayKind
        case Scalar => |v| == 1
        case Fixed => |v| == p.arrayCount
        case Variable => |v| <= MAX_COUNT)
  }

  predicate SlotsFit(pointer64: bool, plan: seq<ValuePlan>, values: seq<seq<Bytes>>) {
    |values| == |plan| && forall i :: 0 <= i < |plan| ==> SlotFits(pointer64, plan[i], values[i])
  }

  function SlotPayload(order: ByteOrder, pointer64: bool, p: ValuePlan, v: seq<Bytes>): Bytes
    requires SlotFits(pointer64, p, v)
  {
    (if p.arrayKind.Variable? then Put16(order, |v|) else []) + WireElems(order, KindEncoding(pointer64, p.kind), v)
  }

  /** The payload of a binding, its values in plan order. */
  function SlotsPayload(order: ByteOrder, pointer64: bool, plan: seq<ValuePlan>, values: seq<seq<Bytes>>): Bytes
    requires SlotsFit(pointer64, plan, values)
    decreases |plan|
  {
    if plan == [] then []
    else SlotPayload(order, pointer64, plan[0], values[0]) + SlotsPayload(order, pointer64, plan[1..], values[1..])
  }

  lemma {:induction false} SlotsConcat(order: ByteOrder, pointer64: bool, p: seq<ValuePlan>, q: seq<ValuePlan>,
                                       v: seq<seq<Bytes>>, w: seq<seq<Bytes>>)
    requires SlotsFit(pointer64, p, v) && SlotsFit(pointer64, q, w)
    ensures SlotsFit(pointer64, p + q, v + w)
    ensures SlotsPayload(order, pointer64, p + q, v + w)
         == SlotsPayload(order, pointer64, p, v) + SlotsPayload(order, pointer64, q, w)
    decreases |p|
  {
    hide SlotFits, SlotPayload;
    if p == [] {
      assert p + q == q && v + w == w;
    } else {
      SlotsConcat(order, pointer64, p[1..], q, v[1..], w);
      assert (p + q)[1..] == p[1..] + q && (v + w)[1..] == v[1..] + w;
      assert (p + q)[0] == p[0] && (v + w)[0] == v[0];
    }
  }

  lemma SlotsSplit(pointer64: bool, p: seq<ValuePlan>, q: seq<ValuePlan>, values: seq<seq<Bytes>>)
    requires SlotsFit(pointer64, p + q, values)
    ensures SlotsFit(pointer64, p, values[..|p|]) && SlotsFit(pointer64, q, values[|p|..])
  {
    forall i | 0 <= i < |p| ensures SlotFits(pointer64, p[i], values[..|p|][i]) {
      assert (p + q)[i] == p[i];
    }
    forall i | 0 <= i < |q| ensures SlotFits(pointer64, q[i], values[|p|..][i]) {
      assert (p + q)[|p| + i] == q[i];
    }
  }

  // ------------------------------------------------------------ filled trees

  /** The array kind that the number of a definition stands for. */
  function GivenKind(d: FieldDefinition): ArrayKind {
    if d.arrayKind == 1 then Fixed else if d.arrayKind == 2 then Variable else Scalar
  }

  /** A plain value takes no array constructor, a fixed array one nonzero count,
      a variable one none; there is no other kind. */
  predicate KindRefused(d: FieldDefinition) {
    || d.arrayKind > 2
    || (d.arrayKind == 0 && (d.arrayField || d.countArgs != 0))
    || (d.arrayKind == 1 && (d.countArgs != 1 || d.arrayCount == 0))
    || (d.arrayKind == 2 && d.countArgs != 0)
  }

  lemma ArrayKindAsGiven(d: FieldDefinition)
    ensures ArrayKindOf(d) == if KindRefused(d) then Err(ErrInvalidValue) else Ok(GivenKind(d))
  {
  }

  /** An array constructor over a plain value is accepted for a fixed array with
      one nonzero count or a variable one without; over an array never. */
  lemma ArrayFieldKind(element: FieldDefinition, kind: byte, count: seq<u16>)
    ensures ArrayKindOf(ArrayField(element, kind, count)) ==
            if !element.arrayField && kind == 1 && |count| == 1 && count[0] > 0 then Ok(Fixed)
            else if !element.arrayField && kind == 2 && count == [] then Ok(Variable)
            else Err(ErrInvalidValue)
    ensures kind == 1 && |count| == 1 ==> ArrayField(element, kind, count).arrayCount == count[0]
  {
  }

  /** The plan entries of a definition, in order. */
  function PlanOf(d: FieldDefinition): seq<ValuePlan>
    decreases d, 0
  {
    if d.kind.KindStruct? then PlansOf(d.children) else [ValuePlan(d.kind, GivenKind(d), d.arrayCount)]
  }

  function PlansOf(ds: seq<FieldDefinition>): seq<ValuePlan>
    decreases ds, 1
  {
    if ds == [] then [] else PlanOf(ds[0]) + PlansOf(ds[1..])
  }

  /** The tree of a definition whose plan entries take these values. */
  function Fill(d: FieldDefinition, values: seq<seq<Bytes>>): Node
    requires |values| == |PlanOf(d)|
    decreases d, 0
  {
    if d.kind.KindStruct? then Struct(d.name, GivenTag(d.options), FillAll(d.children, values))
    else Leaf(d.name, d.encoding, GivenFormat(d.format, d.options), GivenTag(d.options), GivenKind(d), values[0])
  }

  function FillAll(ds: seq<FieldDefinition>, values: seq<seq<Bytes>>): (ns: seq<Node>)
    requires |values| == |PlansOf(ds)|
    ensures |ns| == |ds|
    decreases ds, 1
  {
    if ds == [] then []
    else
      var n := |PlanOf(ds[0])|;
      [Fill(ds[0], values[..n])] + FillAll(ds[1..], values[n..])
  }

  /** What the field constructors stand for: a leaf of the kind's encoding with what
      the options ask for, an array of the elements' leaves, a structure of the
      fields' trees. */
  lemma ConstructorTrees(pointer64: bool, name: Bytes, kind: ValueKind, options: seq<FieldOptions>, count: u16, v: seq<Bytes>,
                         fields: seq<FieldDefinition>, values: seq<seq<Bytes>>)
    requires IsValue(kind) && |values| == |PlansOf(fields)|
    ensures var encoding, format := KindEncoding(pointer64, kind), GivenFormat(KindFormat(kind), options);
            var scalar := ScalarField(pointer64, name, kind, options);
            var fixed, variable := ArrayField(scalar, 1, [count]), ArrayField(scalar, 2, []);
            && PlanOf(scalar) == [ValuePlan(kind, Scalar, 0)]
            && PlanOf(fixed) == [ValuePlan(kind, Fixed, count)]
            && PlanOf(variable) == [ValuePlan(kind, Variable, 0)]
            && Fill(scalar, [v]) == Leaf(name, encoding, format, GivenTag(options), Scalar, v)
            && Fill(fixed, [v]) == Leaf(name, encoding, format, GivenTag(options), Fixed, v)
            && Fill(variable, [v]) == Leaf(name, encoding, format, GivenTag(options), Variable, v)
            && Fill(StructField(name, fields, options), values) == Struct(name, GivenTag(options), FillAll(fields, values))
  {
    hide KindEncoding, KindFormat;
  }

  // ------------------------------------------------------------ least payload

  function LeastSlot(pointer64: bool, p: ValuePlan): nat {
    match p.arrayKind
    case Scalar => MinimumValueSize(pointer64, p.kind)
    case Fixed => p.arrayCount * MinimumValueSize(pointer64, p.kind)
    case Variable => 2
  }

  function LeastPayload(pointer64: bool, plan: seq<ValuePlan>): nat {
    if plan == [] then 0 else LeastSlot(pointer64, plan[0]) + LeastPayload(pointer64, plan[1..])
  }

  lemma {:induction false} LeastConcat(pointer64: bool, p: seq<ValuePlan>, q: seq<ValuePlan>)
    ensures LeastPayload(pointer64, p + q) == LeastPayload(pointer64, p) + LeastPayload(pointer64, q)
  {
    hide LeastSlot;
    if p == [] {
      assert p + q == q;
    } else {
      LeastConcat(pointer64, p[1..], q);
      assert (p + q)[1..] == p[1..] + q && (p + q)[0] == p[0];
    }
  }

  /** The shortest value of a kind: empty when counted. */
  function LeastElem(pointer64: bool, kind: ValueKind): Bytes {
    if Counted(KindEncoding(pointer64, kind)) then [] else seq(MinimumValueSize(pointer64, kind), _ => 0)
  }

  function LeastValues(pointer64: bool, p: ValuePlan): seq<Bytes> {
    seq(match p.arrayKind case Scalar => 1 case Fixed => p.arrayCount case Variable => 0, _ => LeastElem(pointer64, p.kind))
  }

  lemma LeastElemSize(order: ByteOrder, pointer64: bool, kind: ValueKind)
    requires IsValue(kind)
    ensures var e := KindEncoding(pointer64, kind);
            && ValidElem(e, LeastElem(pointer64, kind)) && KindElem(kind, LeastElem(pointer64, kind))
            && |WireElem(order, e, LeastElem(pointer64, kind))| == MinimumValueSize(pointer64, kind)
            && forall raw :: ValidElem(e, raw) ==> |WireElem(order, e, raw)| >= MinimumValueSize(pointer64, kind)
  {
  }

  lemma {:induction false} WireElemsSize(order: ByteOrder, encoding: byte, elems: seq<Bytes>, size: nat)
    requires ValidElems(encoding, elems)
    requires forall i :: 0 <= i < |elems| ==> |WireElem(order, encoding, elems[i])| >= size
    ensures |WireElems(order, encoding, elems)| >= |elems| * size
    ensures (forall i :: 0 <= i < |elems| ==> |WireElem(order, encoding, elems[i])| == size) ==>
              |WireElems(order, encoding, elems)| == |elems| * size
    decreases |elems|
  {
    hide WireElem;
    if elems != [] {
      WireElemsSize(order, encoding, elems[1..], size);
      assert |elems| * size == size + (|elems| - 1) * size;
    }
  }

  /** Every binding of a slot has at least the least payload; the least values attain it. */
  lemma SlotBound(order: ByteOrder, pointer64: bool, p: ValuePlan, v: seq<Bytes>)
    requires SlotFits(pointer64, p, v)
    ensures |SlotPayload(order, pointer64, p, v)| >= LeastSlot(pointer64, p)
    ensures SlotFits(pointer64, p, LeastValues(pointer64, p))
    ensures |SlotPayload(order, pointer64, p, LeastValues(pointer64, p))| == LeastSlot(pointer64, p)
  {
    hide WireElem, ValidElem, LeastElem, KindElem;
    var e, size, least := KindEncoding(pointer64, p.kind), MinimumValueSize(pointer64, p.kind), LeastValues(pointer64, p);
    LeastElemSize(order, pointer64, p.kind);
    WireElemsSize(order, e, v, size);
    WireElemsSize(order, e, least, size);
  }

  function LeastBinding(pointer64: bool, plan: seq<ValuePlan>): seq<seq<Bytes>> {
    if plan == [] then [] else [LeastValues(pointer64, plan[0])] + LeastBinding(pointer64, plan[1..])
  }

  predicate Bindable(plan: seq<ValuePlan>) {
    forall i :: 0 <= i < |plan| ==> IsValue(plan[i].kind)
  }

  lemma {:induction false} LeastIsAttained(order: ByteOrder, pointer64: bool, plan: seq<ValuePlan>)
    requires Bindable(plan)
    ensures SlotsFit(pointer64, plan, LeastBinding(pointer64, plan))
    ensures |SlotsPayload(order, pointer64, plan, LeastBinding(pointer64, plan))| == LeastPayload(pointer64, plan)
    decreases |plan|
  {
    hide SlotPayload, LeastValues, LeastSlot;
    if plan != [] {
      SlotHasLeast(pointer64, plan[0]);
      SlotBound(order, pointer64, plan[0], LeastValues(pointer64, plan[0]));
      LeastIsAttained(order, pointer64, plan[1..]);
      var all := LeastBinding(pointer64, plan);
      assert all[1..] == LeastBinding(pointer64, plan[1..]);
      forall i | 0 <= i < |plan| ensures SlotFits(pointer64, plan[i], all[i]) {
        if i > 0 {
          assert SlotFits(pointer64, plan[1..][i - 1], all[1..][i - 1]);
        }
      }
    }
  }

  lemma SlotHasLeast(pointer64: bool, p: ValuePlan)
    requires IsValue(p.kind)
    ensures SlotFits(pointer64, p, LeastValues(pointer64, p))
  {
    hide ValidElem, LeastElem, KindElem;
    LeastElemSize(Little, pointer64, p.kind);
  }

  lemma {:induction false} LeastIsLower(order: ByteOrder, pointer64: bool, plan: seq<ValuePlan>, values: seq<seq<Bytes>>)
    requires SlotsFit(pointer64, plan, values)
    ensures |SlotsPayload(order, pointer64, plan, values)| >= LeastPayload(pointer64, plan)
    decreases |plan|
  {
    hide SlotPayload, LeastSlot;
    if plan != [] {
      SlotBound(order, pointer64, plan[0], values[0]);
      LeastIsLower(order, pointer64, plan[1..], values[1..]);
    }
  }

  // -------------------------------------------------------------- compilation

  /** Every check of the compiler but the sizes. */
  predicate Shaped(d: FieldDefinition, depth: nat)
    decreases d, 0
  {
    && ValidName(d.name)
    && !d.kind.KindInvalid?
    && |d.options| <= 1
    && (if d.kind.KindStruct? then
          && !d.arrayField && depth < MAX_STRUCT_DEPTH
          && 1 <= |d.children| <= MAX_STRUCT_CHILDREN
          && GivenFormat(0, d.options) == 0
          && AllShaped(d.children, depth + 1)
        else !KindRefused(d) && !OptionsRefused(d.format, d.options))
  }

  predicate AllShaped(ds: seq<FieldDefinition>, depth: nat)
    decreases ds, 1
  {
    if ds == [] then true else Shaped(ds[0], depth) && AllShaped(ds[1..], depth)
  }

  lemma {:induction false} ShapedBindable(pointer64: bool, d: FieldDefinition, depth: nat)
    requires Shaped(d, depth)
    ensures Bindable(PlanOf(d))
    decreases d, 0
  {
    if d.kind.KindStruct? {
      AllShapedBindable(pointer64, d.children, depth + 1);
    }
  }

  lemma {:induction false} AllShapedBindable(pointer64: bool, ds: seq<FieldDefinition>, depth: nat)
    requires AllShaped(ds, depth)
    ensures Bindable(PlansOf(ds))
    decreases ds, 1
  {
    if ds != [] {
      ShapedBindable(pointer64, ds[0], depth);
      AllShapedBindable(pointer64, ds[1..], depth);
    }
  }

  /** A size that does not fit is larger than what is left, for the sizes there are. */
  lemma GrowExact(pointer64: bool, least: nat, p: ValuePlan)
    requires IsValue(p.kind) && (p.arrayKind.Fixed? ==> p.arrayCount > 0)
    ensures match GrowPayload(pointer64, least, p.kind, p.arrayKind, p.arrayCount)
            case Ok(m) => m == least + LeastSlot(pointer64, p)
            case Err(e) => e == ErrEventTooLarge && least + LeastSlot(pointer64, p) > MAX_METADATA_PAYLOAD
  {
    var size := MinimumValueSize(pointer64, p.kind);
    assert size == 1 || size == 2 || size == 4 || size == 8 || size == 16;
  }

  /** What the compiler adds to its accumulators, or why it stops. */
  ghost predicate Compiles(order: ByteOrder, pointer64: bool, acc: Compiled, shaped: bool, plan: seq<ValuePlan>, r: Result<Compiled, BuildError>) {
    match r
    case Ok(c) =>
      && shaped
      && c.plan == acc.plan + plan
      && c.minPayload == acc.minPayload + LeastPayload(pointer64, plan)
    case Err(e) =>
      shaped ==> e == ErrEventTooLarge && acc.minPayload + LeastPayload(pointer64, plan) > MAX_METADATA_PAYLOAD
  }

  lemma {:induction false} CompileExact(order: ByteOrder, pointer64: bool, acc: Compiled, d: FieldDefinition, depth: nat)
    requires Constructed(pointer64, d) && acc.minPayload >= 0
    ensures Compiles(order, pointer64, acc, Shaped(d, depth), PlanOf(d), CompileDef(order, pointer64, acc, d, depth))
    decreases d, 0
  {
    hide ValidName, StructHead, ValueMeta, LeastSlot, GrowPayload;
    ResolvesAsGiven(0, d.options);
    ResolvesAsGiven(d.format, d.options);
    ArrayKindAsGiven(d);
    if d.kind.KindStruct? {
      if ResolveOptions(0, d.options).Ok? {
        var option := ResolveOptions(0, d.options).value;
        if |d.children| <= MAX_STRUCT_CHILDREN {
          var start := acc.(metadata := acc.metadata + StructHead(order, d.name, option.tag, |d.children|));
          CompileAllExact(order, pointer64, start, d.children, depth + 1);
        }
      }
    } else if ArrayKindOf(d).Ok? && !d.kind.KindInvalid? {
      var p := ValuePlan(d.kind, GivenKind(d), d.arrayCount);
      GrowExact(pointer64, acc.minPayload, p);
      assert [p][1..] == [];
      assert LeastPayload(pointer64, [p]) == LeastSlot(pointer64, p) + LeastPayload(pointer64, []);
    }
  }

  lemma {:induction false} CompileAllExact(order: ByteOrder, pointer64: bool, acc: Compiled, ds: seq<FieldDefinition>, depth: nat)
    requires AllConstructed(pointer64, ds) && acc.minPayload >= 0
    ensures Compiles(order, pointer64, acc, AllShaped(ds, depth), PlansOf(ds), CompileDefs(order, pointer64, acc, ds, depth))
    decreases ds, 1
  {
    hide CompileDef, Shaped, PlanOf, Constructed;
    if ds == [] {
      assert acc.plan + [] == acc.plan;
    } else {
      CompileExact(order, pointer64, acc, ds[0], depth);
      LeastConcat(pointer64, PlanOf(ds[0]), PlansOf(ds[1..]));
      var first := CompileDef(order, pointer64, acc, ds[0], depth);
      if first.Ok? {
        CompileAllExact(order, pointer64, first.value, ds[1..], depth);
        assert acc.plan + PlanOf(ds[0]) + PlansOf(ds[1..]) == acc.plan + (PlanOf(ds[0]) + PlansOf(ds[1..]));
      }
    }
  }

  // ------------------------------------------------------- metadata and trees

  lemma FillValue(order: ByteOrder, pointer64: bool, acc: Compiled, d: FieldDefinition, depth: nat, values: seq<seq<Bytes>>)
    requires Constructed(pointer64, d) && !d.kind.KindStruct? && Shaped(d, depth)
    requires SlotsFit(pointer64, PlanOf(d), values)
    ensures ValidNode(Fill(d, values)) && Height(Fill(d, values)) == 0
    ensures Payload(order, Fill(d, values)) == SlotsPayload(order, pointer64, PlanOf(d), values)
    ensures ValueMeta(order, d, GivenKind(d), FieldOptions(GivenFormat(d.format, d.options), GivenTag(d.options))) == Meta(order, Fill(d, values))
  {
    hide ValidName, WireElems, FormatBytes, Put16;
    var p := PlanOf(d)[0];
    assert SlotFits(pointer64, p, values[0]);
    assert SlotsPayload(order, pointer64, PlanOf(d), values)
        == SlotPayload(order, pointer64, p, values[0]) + SlotsPayload(order, pointer64, [], []) by {
      assert PlanOf(d)[1..] == [] && values[1..] == [];
    }
  }

  /** A shaped definition filled with fitting values is a tree an encoder accepts. */
  lemma {:induction false} FillValid(order: ByteOrder, pointer64: bool, d: FieldDefinition, depth: nat, values: seq<seq<Bytes>>)
    requires Constructed(pointer64, d) && Shaped(d, depth) && SlotsFit(pointer64, PlanOf(d), values)
    requires depth <= MAX_STRUCT_DEPTH
    ensures ValidNode(Fill(d, values)) && depth + Height(Fill(d, values)) <= MAX_STRUCT_DEPTH
    ensures Payload(order, Fill(d, values)) == SlotsPayload(order, pointer64, PlanOf(d), values)
    decreases d, 0
  {
    hide ValidName, SlotsPayload, SlotsFit;
    if d.kind.KindStruct? {
      FillAllValid(order, pointer64, d.children, depth + 1, values);
    } else {
      FillValue(order, pointer64, Compiled([], [], 0), d, depth, values);
    }
  }

  lemma {:induction false} FillAllValid(order: ByteOrder, pointer64: bool, ds: seq<FieldDefinition>, depth: nat, values: seq<seq<Bytes>>)
    requires AllConstructed(pointer64, ds) && AllShaped(ds, depth) && SlotsFit(pointer64, PlansOf(ds), values)
    requires depth <= MAX_STRUCT_DEPTH
    ensures ValidForest(FillAll(ds, values)) && depth + ForestHeight(FillAll(ds, values)) <= MAX_STRUCT_DEPTH
    ensures ForestPayload(order, FillAll(ds, values)) == SlotsPayload(order, pointer64, PlansOf(ds), values)
    decreases ds, 1
  {
    hide Constructed, Shaped, PlanOf, Fill, ValidNode, Height, Payload, SlotPayload, SlotFits;
    if ds != [] {
      var p, q := PlanOf(ds[0]), PlansOf(ds[1..]);
      var v, w := values[..|p|], values[|p|..];
      SlotsSplit(pointer64, p, q, values);
      assert v + w == values;
      SlotsConcat(order, pointer64, p, q, v, w);
      FillValid(order, pointer64, ds[0], depth, v);
      FillAllValid(order, pointer64, ds[1..], depth, w);
      var ns := FillAll(ds, values);
      assert ns[0] == Fill(ds[0], v) && ns[1..] == FillAll(ds[1..], w);
      assert forall i :: 0 < i < |ns| ==> ns[i] == ns[1..][i - 1];
    }
  }

  /** The compiled metadata is the metadata of every tree the plan can be filled to. */
  lemma {:induction false} CompileMeta(order: ByteOrder, pointer64: bool, acc: Compiled, d: FieldDefinition, depth: nat, values: seq<seq<Bytes>>)
    requires Constructed(pointer64, d) && Shaped(d, depth) && SlotsFit(pointer64, PlanOf(d), values) && depth <= MAX_STRUCT_DEPTH
    requires CompileDef(order, pointer64, acc, d, depth).Ok?
    ensures ValidNode(Fill(d, values))
    ensures CompileDef(order, pointer64, acc, d, depth).value.metadata == acc.metadata + Meta(order, Fill(d, values))
    decreases d, 0
  {
    hide ValidName, StructHead, SlotFits, SlotsPayload, ValueMeta, GrowPayload, ForestMeta, ForestPayload;
    FillValid(order, pointer64, d, depth, values);
    ResolvesAsGiven(0, d.options);
    ResolvesAsGiven(d.format, d.options);
    ArrayKindAsGiven(d);
    if d.kind.KindStruct? {
      var head := StructHead(order, d.name, GivenTag(d.options), |d.children|);
      var start := acc.(metadata := acc.metadata + head);
      CompileAllMeta(order, pointer64, start, d.children, depth + 1, values);
      var forest := FillAll(d.children, values);
      assert acc.metadata + head + ForestMeta(order, forest) == acc.metadata + (head + ForestMeta(order, forest));
    } else {
      FillValue(order, pointer64, acc, d, depth, values);
    }
  }

  lemma {:induction false} CompileAllMeta(order: ByteOrder, pointer64: bool, acc: Compiled, ds: seq<FieldDefinition>, depth: nat, values: seq<seq<Bytes>>)
    requires AllConstructed(pointer64, ds) && AllShaped(ds, depth) && SlotsFit(pointer64, PlansOf(ds), values) && depth <= MAX_STRUCT_DEPTH
    requires CompileDefs(order, pointer64, acc, ds, depth).Ok?
    ensures ValidForest(FillAll(ds, values))
    ensures CompileDefs(order, pointer64, acc, ds, depth).value.metadata == acc.metadata + ForestMeta(order, FillAll(ds, values))
    decreases ds, 1
  {
    hide Constructed, Shaped, PlanOf, Fill, Meta, CompileDef, SlotFits, SlotsPayload, ValidNode;
    FillAllValid(order, pointer64, ds, depth, values);
    if ds != [] {
      var p := PlanOf(ds[0]);
      var v, w := values[..|p|], values[|p|..];
      SlotsSplit(pointer64, p, PlansOf(ds[1..]), values);
      CompileMeta(order, pointer64, acc, ds[0], depth, v);
      var first := CompileDef(order, pointer64, acc, ds[0], depth).value;
      CompileAllMeta(order, pointer64, first, ds[1..], depth, w);
      var ns := FillAll(ds, values);
      assert ns[0] == Fill(ds[0], v) && ns[1..] == FillAll(ds[1..], w);
      assert acc.metadata + Meta(order, ns[0]) + ForestMeta(order, ns[1..]) == acc.metadata + (Meta(order, ns[0]) + ForestMeta(order, ns[1..]));
    }
  }

  // ------------------------------------------------------------- whole schemas

  /** A complete binding of an accepted schema: what it fills the fields to. */
  lemma SchemaTree(order: ByteOrder, pointer64: bool, name: Bytes, ds: seq<FieldDefinition>, values: seq<seq<Bytes>>)
    requires AllConstructed(pointer64, ds) && CompileSchema(order, pointer64, name, ds).Ok?
    requires SlotsFit(pointer64, CompileSchema(order, pointer64, name, ds).value.plan, values)
    ensures var c := CompileSchema(order, pointer64, name, ds).value;
            && c.plan == PlansOf(ds)
            && AllShaped(ds, 0) && ValidName(name)
            && ValidForest(FillAll(ds, values)) && ForestHeight(FillAll(ds, values)) <= MAX_STRUCT_DEPTH
            && c.metadata == Metadata(order, name, FillAll(ds, values))
            && SlotsPayload(order, pointer64, c.plan, values) == ForestPayload(order, FillAll(ds, values))
  {
    hide ValidName, CompileDefs, AllConstructed, AllShaped, SlotsPayload, FillAll, SlotsFit;
    CompileAllExact(order, pointer64, Compiled(name + [0], [], 0), ds, 0);
    assert [] + PlansOf(ds) == PlansOf(ds);
    CompileAllMeta(order, pointer64, Compiled(name + [0], [], 0), ds, 0, values);
    FillAllValid(order, pointer64, ds, 0, values);
  }

  /** A complete binding of these fields that fits an event. */
  ghost predicate Affordable(order: ByteOrder, pointer64: bool, name: Bytes, ds: seq<FieldDefinition>, values: seq<seq<Bytes>>) {
    && SlotsFit(pointer64, PlansOf(ds), values)
    && ValidForest(FillAll(ds, values))
    && |Metadata(order, name, FillAll(ds, values))| + |SlotsPayload(order, pointer64, PlansOf(ds), values)| <= MAX_METADATA_PAYLOAD
  }

  /** A schema is accepted exactly when its definitions are well formed and some
      complete binding fits an event: the size check is neither late nor early. */
  lemma SchemaAccepted(order: ByteOrder, pointer64: bool, name: Bytes, ds: seq<FieldDefinition>)
    requires AllConstructed(pointer64, ds)
    ensures CompileSchema(order, pointer64, name, ds).Ok?
            <==> ValidName(name) && AllShaped(ds, 0) && exists values :: Affordable(order, pointer64, name, ds, values)
  {
    hide ValidName, CompileDefs, AllConstructed, AllShaped, SlotsPayload, FillAll, SlotsFit, LeastPayload, PlansOf, ForestMeta;
    var start := Compiled(name + [0], [], 0);
    CompileAllExact(order, pointer64, start, ds, 0);
    assert [] + PlansOf(ds) == PlansOf(ds);
    var r := CompileDefs(order, pointer64, start, ds, 0);
    if CompileSchema(order, pointer64, name, ds).Ok? {
      AllShapedBindable(pointer64, ds, 0);
      var least := LeastBinding(pointer64, PlansOf(ds));
      LeastIsAttained(order, pointer64, PlansOf(ds));
      SchemaTree(order, pointer64, name, ds, least);
      assert Affordable(order, pointer64, name, ds, least);
    }
    if ValidName(name) && AllShaped(ds, 0) && exists values :: Affordable(order, pointer64, name, ds, values) {
      var values :| Affordable(order, pointer64, name, ds, values);
      LeastIsLower(order, pointer64, PlansOf(ds), values);
      assert r.Ok?;
      CompileAllMeta(order, pointer64, start, ds, 0, values);
    }
  }
}

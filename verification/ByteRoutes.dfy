/** The way of bytes from a command into variable slots and from there into telemetry. */
module ByteRoutes {
  import opened Bytes
  import opened MicroOps
  import opened MicroVarStore

  const MAX_EXTRACT_FIELDS := 4
  const MAX_TELEMETRY_FIELDS := 8
  const MAX_TELEMETRY_BYTES := 8

  /** A run of bytes in a message and the slot it is moved to or from. */
  datatype Field = Field(offset: byte, size: byte, slot: byte)

  predicate Extractable(f: Field, slots: nat, length: nat) {
    1 <= f.size <= 8 && f.offset + f.size <= length && f.slot < slots
  }

  function Cut(payload: seq<byte>, f: Field): (r: seq<byte>)
    requires f.offset + f.size <= |payload|
    ensures |r| == f.size
  {
    payload[f.offset..f.offset + f.size]
  }

  /** Extraction stops at the first bad field; earlier fields have been stored by then. */
  function Extracted(vars: seq<int64>, fields: seq<Field>, payload: seq<byte>): (bool, seq<int64>)
    decreases |fields|
  {
    if fields == [] then (true, vars)
    else if !Extractable(fields[0], |vars|, |payload|) then (false, vars)
    else Extracted(vars[fields[0].slot := FromSlotBytes(Cut(payload, fields[0]))], fields[1..], payload)
  }

  function Used<T>(fields: seq<T>, count: nat): seq<T> {
    if count <= |fields| then fields[..count] else fields
  }

  method ExtractCommandFields(store: VarStore?, fields: seq<Field>, count: nat, payload: seq<byte>) returns (ok: bool)
    requires |fields| == 4
    modifies if store == null then {} else {store.vars}
    ensures if store == null then !ok
            else (ok, store.vars[..]) == Extracted(old(store.vars[..]), Used(fields, count), payload)
  {
    if store == null {
      return false;
    }
    ghost var used := Used(fields, count);
    ghost var goal := Extracted(store.vars[..], used, payload);
    var i := 0;
    while i < count && i < MAX_EXTRACT_FIELDS
      invariant 0 <= i <= |used| && goal == Extracted(store.vars[..], used[i..], payload)
      decreases MAX_EXTRACT_FIELDS - i
    {
      assert used[i..][0] == fields[i] && used[i..][1..] == used[i + 1..];
      ok := ExtractField(store, fields[i], payload);
      if !ok {
        return;
      }
      i := i + 1;
    }
    ok := true;
  }

  /** One round of the loop: a bad field changes nothing, a good one is stored. */
  method ExtractField(store: VarStore, f: Field, payload: seq<byte>) returns (ok: bool)
    modifies store.vars
    ensures ok <==> Extractable(f, store.vars.Length, |payload|)
    ensures store.vars[..] == if ok then old(store.vars[..])[f.slot := FromSlotBytes(Cut(payload, f))]
                              else old(store.vars[..])
  {
    if f.size == 0 || f.size > 8 || f.offset + f.size > |payload| || f.slot >= store.vars.Length {
      return false;
    }
    var packed := FromSlotBytes(payload[f.offset..f.offset + f.size]);
    store.Set(f.slot, packed);
    ok := true;
  }

  /** A mapping that is sent: it lies inside the payload and has a machine integer's size. */
  predicate Mappable(f: Field, size: nat) {
    f.offset + f.size <= size && (f.size == 1 || f.size == 2 || f.size == 4 || f.size == 8)
  }

  function Mapped(vars: seq<int64>, fields: seq<Field>, out: seq<byte>): (r: seq<byte>)
    ensures |r| == |out|
  {
    if fields == [] then out
    else
      var f := fields[|fields| - 1];
      var before := Mapped(vars, fields[..|fields| - 1], out);
      if Mappable(f, |out|) then Splice(before, f.offset, ToLE(Unsigned(Get(vars, f.slot)), f.size)) else before
  }

  /** Fills the first `size` bytes of `out`; a size of 0 or above 8 leaves it alone. */
  method BuildPayload(store: VarStore?, fields: seq<Field>, count: nat, size: nat, out: array<byte>)
    requires |fields| == 8 && out.Length == 8
    modifies out
    ensures size == 0 || size > 8 ==> out[..] == old(out[..])
    ensures 1 <= size <= 8 ==>
      && out[size..] == old(out[size..])
      && out[..size] == if store == null then Zeros(size) else Mapped(store.vars[..], Used(fields, count), Zeros(size))
  {
    if size == 0 || size > MAX_TELEMETRY_BYTES {
      return;
    }
    ClearBytes(out, size);
    if store == null {
      return;
    }
    MapFields(store, fields, count, size, out);
  }

  method MapFields(store: VarStore, fields: seq<Field>, count: nat, size: nat, out: array<byte>)
    requires |fields| == 8 && size <= out.Length && out[..size] == Zeros(size) && store.vars != out as object
    modifies out
    ensures out[size..] == old(out[size..])
    ensures out[..size] == Mapped(store.vars[..], Used(fields, count), Zeros(size))
  {
    ghost var used := Used(fields, count);
    ghost var vars := store.vars[..];
    var i := 0;
    while i < count && i < MAX_TELEMETRY_FIELDS
      invariant 0 <= i <= |used| && out[size..] == old(out[size..])
      invariant out[..size] == Mapped(vars, used[..i], Zeros(size))
      decreases MAX_TELEMETRY_FIELDS - i
    {
      MappedOneMore(vars, used, i, Zeros(size));
      MapField(store, fields[i], size, out);
      i := i + 1;
    }
    assert used[..i] == used;
  }

  lemma MappedOneMore(vars: seq<int64>, fields: seq<Field>, i: nat, out: seq<byte>)
    requires i < |fields|
    ensures var before := Mapped(vars, fields[..i], out);
            Mapped(vars, fields[..i + 1], out)
              == if Mappable(fields[i], |out|)
                 then Splice(before, fields[i].offset, ToLE(Unsigned(Get(vars, fields[i].slot)), fields[i].size))
                 else before
  {
    assert fields[..i + 1][..i] == fields[..i];
  }

  /** One round of the loop: a field that does not fit or has an odd size is passed over. */
  method MapField(store: VarStore, f: Field, size: nat, out: array<byte>)
    requires size <= out.Length && store.vars != out as object
    modifies out
    ensures out[size..] == old(out[size..])
    ensures out[..size] == if Mappable(f, size)
                           then Splice(old(out[..size]), f.offset, ToLE(Unsigned(Get(store.vars[..], f.slot)), f.size))
                           else old(out[..size])
  {
    if f.offset + f.size > size {
      return;
    }
    if f.size != 1 && f.size != 2 && f.size != 4 && f.size != 8 {
      return;
    }
    var value := store.Read(f.slot);
    CopyBytes(out, f.offset, ToLE(Unsigned(value), f.size), size);
  }

  method ClearBytes(out: array<byte>, size: nat)
    requires size <= out.Length
    modifies out
    ensures out[..size] == Zeros(size) && out[size..] == old(out[size..])
  {
    for i := 0 to size
      invariant out[..i] == Zeros(i) && out[size..] == old(out[size..])
    {
      out[i] := 0;
    }
  }

  method CopyBytes(out: array<byte>, at: nat, b: seq<byte>, size: nat)
    requires at + |b| <= size <= out.Length
    modifies out
    ensures out[..size] == Splice(old(out[..size]), at, b) && out[size..] == old(out[size..])
  {
    ghost var before := out[..size];
    for i := 0 to |b|
      invariant out[size..] == old(out[size..])
      invariant out[..size] == Splice(before, at, b[..i])
    {
      out[at + i] := b[i];
    }
    assert b[..|b|] == b;
  }

  // ---------------------------------------------------------------- the round trip

  predicate DistinctSlots(fields: seq<Field>) {
    forall i, j :: 0 <= i < j < |fields| ==> fields[i].slot != fields[j].slot
  }

  lemma {:induction false} UntouchedSlot(vars: seq<int64>, fields: seq<Field>, payload: seq<byte>, s: nat)
    requires s < |vars| && forall i :: 0 <= i < |fields| ==> fields[i].slot != s
    ensures |Extracted(vars, fields, payload).1| == |vars|
    ensures Extracted(vars, fields, payload).1[s] == vars[s]
    decreases |fields|
  {
    if fields != [] && Extractable(fields[0], |vars|, |payload|) {
      UntouchedSlot(vars[fields[0].slot := FromSlotBytes(Cut(payload, fields[0]))], fields[1..], payload, s);
    }
  }

  /** A successful extraction into distinct slots leaves every field's bytes in its slot. */
  lemma {:induction false} ExtractedSlots(vars: seq<int64>, fields: seq<Field>, payload: seq<byte>, j: nat)
    requires DistinctSlots(fields) && j < |fields| && Extracted(vars, fields, payload).0
    ensures var after := Extracted(vars, fields, payload).1;
            && |after| == |vars| && Extractable(fields[j], |vars|, |payload|)
            && after[fields[j].slot] == FromSlotBytes(Cut(payload, fields[j]))
    decreases |fields|
  {
    var next := vars[fields[0].slot := FromSlotBytes(Cut(payload, fields[0]))];
    if j == 0 {
      UntouchedSlot(next, fields[1..], payload, fields[0].slot);
    } else {
      ExtractedSlots(next, fields[1..], payload, j - 1);
    }
  }

  /** Extraction succeeds exactly when every field has 1 to 8 bytes, lies inside the payload and
      goes to a slot of the table. */
  lemma {:induction false} ExtractionSucceedsIff(vars: seq<int64>, fields: seq<Field>, payload: seq<byte>)
    ensures Extracted(vars, fields, payload).0 <==>
              forall f :: f in fields ==> f.size > 0 && f.size <= 8 && f.offset + f.size <= |payload| && f.slot < |vars|
    decreases |fields|
  {
    if fields != [] && Extractable(fields[0], |vars|, |payload|) {
      ExtractionSucceedsIff(vars[fields[0].slot := FromSlotBytes(Cut(payload, fields[0]))], fields[1..], payload);
      assert forall f :: f in fields <==> f == fields[0] || f in fields[1..];
    }
  }

  /** At a bad field it stops, with the fields before it stored and no other. */
  lemma {:induction false} ExtractionStops(vars: seq<int64>, fields: seq<Field>, payload: seq<byte>, j: nat)
    requires j < |fields| && Extracted(vars, fields[..j], payload).0
    requires var f := fields[j]; f.size == 0 || f.size > 8 || f.offset + f.size > |payload| || f.slot >= |vars|
    ensures Extracted(vars, fields, payload) == (false, Extracted(vars, fields[..j], payload).1)
    decreases |fields|
  {
    if j > 0 {
      assert fields[..j][0] == fields[0] && fields[..j][1..] == fields[1..][..j - 1];
      ExtractionStops(vars[fields[0].slot := FromSlotBytes(Cut(payload, fields[0]))], fields[1..], payload, j - 1);
    }
  }

  predicate Disjoint(a: Field, b: Field) {
    a.offset + a.size <= b.offset || b.offset + b.size <= a.offset
  }

  predicate NonOverlapping(fields: seq<Field>) {
    forall i, j :: 0 <= i < j < |fields| ==> Disjoint(fields[i], fields[j])
  }

  lemma {:induction false} MappedBytes(vars: seq<int64>, fields: seq<Field>, out: seq<byte>, k: nat)
    requires NonOverlapping(fields) && k < |fields| && Mappable(fields[k], |out|)
    ensures Cut(Mapped(vars, fields, out), fields[k]) == ToLE(Unsigned(Get(vars, fields[k].slot)), fields[k].size)
    decreases |fields|
  {
    var n := |fields| - 1;
    if k < n {
      MappedBytes(vars, fields[..n], out, k);
      assert Disjoint(fields[k], fields[n]);
    }
  }

  /** Bytes outside every mapping stay zero. */
  lemma {:induction false} UnmappedBytes(vars: seq<int64>, fields: seq<Field>, out: seq<byte>, p: nat)
    requires p < |out|
    requires forall k :: 0 <= k < |fields| ==> !(fields[k].offset <= p < fields[k].offset + fields[k].size)
    ensures Mapped(vars, fields, out)[p] == out[p]
    decreases |fields|
  {
    if fields != [] {
      UnmappedBytes(vars, fields[..|fields| - 1], out, p);
    }
  }

  /** Whether a mapping sends byte `p` of a payload of `size` bytes: it lies inside the payload and has
      the size of a machine integer. */
  predicate Sends(f: Field, p: nat, size: nat) {
    f.offset <= p < f.offset + f.size <= size && f.size in {1, 2, 4, 8}
  }

  /** For any mappings, overlapping ones included: a byte of the payload is the one the last mapping
      that sends it takes from its slot, 0 if there is no such slot. */
  lemma {:induction false} LastMappingWins(vars: seq<int64>, fields: seq<Field>, out: seq<byte>, k: nat, p: nat)
    requires k < |fields| && Sends(fields[k], p, |out|)
    requires forall j :: k < j < |fields| ==> !Sends(fields[j], p, |out|)
    ensures var f := fields[k];
            Mapped(vars, fields, out)[p] == if f.slot < |vars| then SlotBytes(vars[f.slot])[p - f.offset] else 0
    decreases |fields|
  {
    var n, f := |fields| - 1, fields[k];
    if k < n {
      LastMappingWins(vars, fields[..n], out, k, p);
    } else {
      FewerBytes(Unsigned(Get(vars, f.slot)), f.size, 8);
      BytesOfZero(8);
    }
  }

  /** And the byte that was there when none sends it. */
  lemma {:induction false} UnsentByte(vars: seq<int64>, fields: seq<Field>, out: seq<byte>, p: nat)
    requires p < |out| && forall f :: f in fields ==> !Sends(f, p, |out|)
    ensures Mapped(vars, fields, out)[p] == out[p]
    decreases |fields|
  {
    if fields != [] {
      var n := |fields| - 1;
      assert fields[n] in fields;
      UnsentByte(vars, fields[..n], out, p);
    }
  }

  /** A command's bytes extracted to distinct slots and mapped, at most at full length, to
      non-overlapping telemetry offsets arrive unchanged. */
  lemma CommandBytesReachTelemetry(
    vars: seq<int64>, fields: seq<Field>, payload: seq<byte>, mappings: seq<Field>, size: nat, j: nat, k: nat)
    requires DistinctSlots(fields) && NonOverlapping(mappings)
    requires j < |fields| && k < |mappings| && Extracted(vars, fields, payload).0
    requires Mappable(mappings[k], size) && mappings[k].slot == fields[j].slot && mappings[k].size <= fields[j].size
    ensures var sent := Mapped(Extracted(vars, fields, payload).1, mappings, Zeros(size));
            && Extractable(fields[j], |vars|, |payload|)
            && Cut(sent, mappings[k]) == Cut(payload, fields[j])[..mappings[k].size]
  {
    var after := Extracted(vars, fields, payload).1;
    ExtractedSlots(vars, fields, payload, j);
    MappedBytes(after, mappings, Zeros(size), k);
    LoadAfterStore(Cut(payload, fields[j]), mappings[k].size);
  }
}

/** The compiler's symbol table (ts/api/tsdef/source/module.c): units and
    plugin functions hashed by name into 2048 buckets, overload resolution
    for a call, and the lists that record which units and plugin groups a
    program ends up using. */
module DefModule {
  import opened Wrappers
  import opened DefTypes
  import opened DefFFI
  import opened Def
  import opened Arguments

  const HashFNVPrime: bv32 := 16777619

  /** TSDEF_MODULE_OBJECT_HASH_SIZE. */
  const HashSize: nat := 2048

  /** A name character as the hash sees it: a `char` is signed in the source,
      so a byte of 128 or more is sign-extended before the XOR. */
  function CharBits(c: char): bv32
  {
    var b := ((c as int) % 256) as bv8;
    if b < 128 then b as bv32 else (b as bv32) | 0xFFFF_FF00
  }

  /** One round of the hash: multiply by the FNV prime with unsigned
      wrap-around, then mix in the character. */
  function HashStep(h: bv32, c: char): bv32
  {
    (h * HashFNVPrime) ^ CharBits(c)
  }

  /** The 32-bit hash of a name before reduction. */
  function RawHash(name: string): bv32
  {
    if |name| == 0 then 0
    else HashStep(RawHash(name[..|name| - 1]), name[|name| - 1])
  }

  /** ComputeHash: the loop over the name's characters, reduced to a bucket
      index. */
  method ComputeHash(name: string) returns (hash: nat)
    ensures hash < HashSize
    ensures hash == RawHash(name) as nat % HashSize
  {
    var h: bv32 := 0;
    var i := 0;
    while i < |name|
      invariant 0 <= i <= |name|
      invariant h == RawHash(name[..i])
    {
      assert name[..i + 1][..i] == name[..i];
      h := HashStep(h, name[i]);
      i := i + 1;
    }
    assert name[..i] == name;
    hash := h as nat % HashSize;
  }

  function BucketOf(name: string): (b: nat)
    ensures b < HashSize
  {
    RawHash(name) as nat % HashSize
  }

  // ---------------------------------------------------------------------
  // Module objects

  /** A plugin function's identity: its group's id and its slot in the
      group's object array. */
  datatype FFIRef = FFIRef(groupId: nat, slot: nat)

  datatype FFIObject = FFIObject(ref: FFIRef, def: FFIFunction)

  /** struct tsdef_module_object_hash_node, each list newest first. */
  datatype Bucket = Bucket(templateUnits: seq<Unit>, typedUnits: seq<Unit>, ffiObjects: seq<FFIObject>)

  /** struct tsdef_module_ffi_group. */
  datatype FFIGroup = FFIGroup(name: string, groupId: nat, functions: seq<FFIFunction>, referenced: bool)

  /** struct tsdef_module. Groups are indexed by id; the registered and
      referenced lists hold ids, newest first. */
  datatype Module = Module(
    buckets: seq<Bucket>,
    groups: seq<FFIGroup>,
    registeredGroups: seq<nat>,
    referencedGroups: seq<nat>,
    registeredFFI: seq<FFIRef>,
    referencedFFI: seq<FFIRef>,
    ffiReferenced: set<FFIRef>,
    referencedUnitCount: nat,
    unresolvedUnits: seq<Unit>,
    referencedUnits: seq<Unit>)

  predicate WellSized(m: Module)
  {
    |m.buckets| == HashSize &&
    forall i :: 0 <= i < |m.groups| ==> m.groups[i].groupId == i
  }

  /** TSDef_InitializeModule. */
  function InitializeModule(): (m: Module)
    ensures WellSized(m) && GroupListsPartitioned(m) && FFIListsPartitioned(m)
    ensures forall i :: 0 <= i < HashSize ==> m.buckets[i] == Bucket([], [], [])
    ensures |m.groups| == 0 && m.referencedUnitCount == 0
    ensures |m.unresolvedUnits| == 0 && |m.referencedUnits| == 0
  {
    Module(seq(HashSize, _ => Bucket([], [], [])), [], [], [], [], [], {}, 0, [], [])
  }

  // ---------------------------------------------------------------------
  // Overload resolution

  /** A same-name typed unit the first scan stops at: its types match
      exactly, or its argument count is wrong. */
  predicate FirstScanStops(u: Unit, name: string, types: seq<PrimType>)
  {
    u.name == name && ArgumentTypesMatchInput(u.input, types) != TypeMismatch
  }

  /** The first loop over the bucket's typed units. */
  method ScanTypedUnits(units: seq<Unit>, name: string, types: seq<PrimType>) returns (r: Option<nat>)
    ensures r.Some? ==> r.value < |units| && FirstScanStops(units[r.value], name, types) &&
                        forall j :: 0 <= j < r.value ==> !FirstScanStops(units[j], name, types)
    ensures r.None? ==> forall j :: 0 <= j < |units| ==> !FirstScanStops(units[j], name, types)
  {
    var i := 0;
    while i < |units|
      invariant 0 <= i <= |units|
      invariant forall j :: 0 <= j < i ==> !FirstScanStops(units[j], name, types)
    {
      if units[i].name == name && ArgumentTypesMatchInput(units[i].input, types) != TypeMismatch {
        return Some(i);
      }
      i := i + 1;
    }
    return None;
  }

  /** The second loop (module.c:169): it walks the typed units again, and
      the count test stops it at the first unit of the name. */
  method ScanTypedUnitsByCount(units: seq<Unit>, name: string, types: seq<PrimType>) returns (r: Option<nat>)
    ensures r.Some? ==> r.value < |units| && units[r.value].name == name &&
                        forall j :: 0 <= j < r.value ==> units[j].name != name
    ensures r.None? ==> forall j :: 0 <= j < |units| ==> units[j].name != name
  {
    var i := 0;
    while i < |units|
      invariant 0 <= i <= |units|
      invariant forall j :: 0 <= j < i ==> units[j].name != name
    {
      if units[i].name == name {
        var m := ArgumentCountMatchInput(units[i].input, types);
        if m == Match || m == CountMismatch {
          return Some(i);
        }
      }
      i := i + 1;
    }
    return None;
  }

  /** An FFI object offered for this call: the right name. */
  predicate Named(f: FFIObject, name: string)
  {
    f.def.name == name
  }

  predicate CountFits(f: FFIObject, types: seq<PrimType>)
  {
    |f.def.argTypes| == |types|
  }

  function Delta(f: FFIObject, types: seq<PrimType>): nat
    requires CountFits(f, types)
  {
    SummedDelta(types, f.def.argTypes)
  }

  datatype FFIScan = FFINone | FFICountMismatch(index: nat) | FFIBest(index: nat, info: FFIMatchInfo)

  /** The third loop: the same-name plugin function with the smallest delta,
      the first one found on a tie; a wrong argument count on any of them
      ends the scan at once. */
  method ScanFFI(ffis: seq<FFIObject>, name: string, types: seq<PrimType>) returns (r: FFIScan)
    ensures r.FFINone? ==> forall j :: 0 <= j < |ffis| ==> !Named(ffis[j], name)
    ensures r.FFICountMismatch? ==>
              r.index < |ffis| && Named(ffis[r.index], name) && !CountFits(ffis[r.index], types) &&
              forall j :: 0 <= j < r.index && Named(ffis[j], name) ==> CountFits(ffis[j], types)
    ensures r.FFIBest? ==>
              var b := r.index;
              b < |ffis| && Named(ffis[b], name) && CountFits(ffis[b], types) &&
              (forall j :: 0 <= j < |ffis| && Named(ffis[j], name) ==>
                 CountFits(ffis[j], types) && Delta(ffis[b], types) <= Delta(ffis[j], types)) &&
              (forall j :: 0 <= j < b && Named(ffis[j], name) ==> Delta(ffis[b], types) < Delta(ffis[j], types)) &&
              r.info.delta == Delta(ffis[b], types) &&
              (r.info.disallowed.Some? <==>
                 exists i :: 0 <= i < |types| && Disallowed(types, ffis[b].def.argTypes, i))
  {
    var best: Option<(nat, FFIMatchInfo)> := None;
    var i := 0;
    while i < |ffis|
      invariant 0 <= i <= |ffis|
      invariant forall j :: 0 <= j < i && Named(ffis[j], name) ==> CountFits(ffis[j], types)
      invariant best.None? ==> forall j :: 0 <= j < i ==> !Named(ffis[j], name)
      invariant best.Some? ==>
                  var b := best.value.0;
                  b < i && Named(ffis[b], name) && CountFits(ffis[b], types) &&
                  (forall j :: 0 <= j < i && Named(ffis[j], name) ==> Delta(ffis[b], types) <= Delta(ffis[j], types)) &&
                  (forall j :: 0 <= j < b && Named(ffis[j], name) ==> Delta(ffis[b], types) < Delta(ffis[j], types)) &&
                  best.value.1.delta == Delta(ffis[b], types) &&
                  (best.value.1.disallowed.Some? <==>
                     exists k :: 0 <= k < |types| && Disallowed(types, ffis[b].def.argTypes, k))
    {
      if ffis[i].def.name == name {
        var m, info := ArgumentTypesMatchFFI(ffis[i].def, types);
        if m == CountMismatch {
          return FFICountMismatch(i);
        }
        if best.None? || info.delta < best.value.1.delta {
          best := Some((i, info));
        }
      }
      i := i + 1;
    }
    if best.None? {
      return FFINone;
    }
    return FFIBest(best.value.0, best.value.1);
  }

  /** The outcome of TSDef_LookupModuleObject, with the object given by its
      index in the bucket's list. */
  datatype LookupResult =
    | FoundUnit(unitIndex: nat)
    | UnitArgumentCount(unitIndex: nat)
    | FoundFFI(ffiIndex: nat, mismatch: Option<MismatchInfo>)
    | FFIArgumentCount(ffiIndex: nat)
    | NotFound

  /** TSDef_LookupModuleObject over the bucket the name hashes to. Typed
      units are preferred to plugin functions; a unit whose types match
      exactly is taken first; a wrong argument count on the first candidate
      met is MODULE_OBJECT_ARGUMENT_COUNT; among plugin overloads the one
      needing the least conversion wins, and ARGUMENT_TYPE_MISMATCH reports
      the last position it cannot convert. */
  method LookupModuleObject(name: string, types: seq<PrimType>, bucket: Bucket) returns (r: LookupResult)
    ensures var units := bucket.typedUnits;
            (exists j :: 0 <= j < |units| && units[j].name == name) <==> (r.FoundUnit? || r.UnitArgumentCount?)
    ensures var units := bucket.typedUnits;
            r.FoundUnit? ==>
              r.unitIndex < |units| && units[r.unitIndex].name == name &&
              (ArgumentTypesMatchInput(units[r.unitIndex].input, types) == Match ||
               forall j :: 0 <= j < |units| ==> !FirstScanStops(units[j], name, types))
    ensures var units := bucket.typedUnits;
            r.FoundUnit? && ArgumentTypesMatchInput(units[r.unitIndex].input, types) == Match ==>
              forall j :: 0 <= j < r.unitIndex ==> !FirstScanStops(units[j], name, types)
    ensures var units := bucket.typedUnits;
            r.UnitArgumentCount? ==>
              r.unitIndex < |units| && units[r.unitIndex].name == name &&
              ArgumentTypesMatchInput(units[r.unitIndex].input, types) == CountMismatch &&
              forall j :: 0 <= j < r.unitIndex ==> !FirstScanStops(units[j], name, types)
    ensures var ffis := bucket.ffiObjects;
            r.FFIArgumentCount? ==>
              r.ffiIndex < |ffis| && Named(ffis[r.ffiIndex], name) && !CountFits(ffis[r.ffiIndex], types)
    ensures var ffis := bucket.ffiObjects;
            r.FoundFFI? ==>
              var b := r.ffiIndex;
              b < |ffis| && Named(ffis[b], name) && CountFits(ffis[b], types) &&
              (forall j :: 0 <= j < |ffis| && Named(ffis[j], name) ==>
                 CountFits(ffis[j], types) && Delta(ffis[b], types) <= Delta(ffis[j], types)) &&
              (forall j :: 0 <= j < b && Named(ffis[j], name) ==> Delta(ffis[b], types) < Delta(ffis[j], types)) &&
              (r.mismatch.Some? <==> exists i :: 0 <= i < |types| && Disallowed(types, ffis[b].def.argTypes, i))
    ensures r.NotFound? <==>
              (forall j :: 0 <= j < |bucket.typedUnits| ==> bucket.typedUnits[j].name != name) &&
              (forall j :: 0 <= j < |bucket.ffiObjects| ==> !Named(bucket.ffiObjects[j], name))
  {
    var first := ScanTypedUnits(bucket.typedUnits, name, types);
    if first.Some? {
      if ArgumentTypesMatchInput(bucket.typedUnits[first.value].input, types) == Match {
        return FoundUnit(first.value);
      }
      return UnitArgumentCount(first.value);
    }
    var second := ScanTypedUnitsByCount(bucket.typedUnits, name, types);
    if second.Some? {
      return FoundUnit(second.value);
    }
    var f := ScanFFI(bucket.ffiObjects, name, types);
    match f
    case FFINone => return NotFound;
    case FFICountMismatch(i) => return FFIArgumentCount(i);
    case FFIBest(i, info) => return FoundFFI(i, info.disallowed);
  }

  /** As written, the second scan accepts a same-name typed unit whose
      argument types differ from the call's: with one unit `f` taking an
      int, a call `f("x")` finds `f` and reports no error. */
  lemma SecondScanAcceptsTypeMismatch(u: Unit, types: seq<PrimType>)
    requires u.input.Some? && |u.input.value.variables| == 1
    requires u.input.value.variables[0].binding == Some(VarBinding(0, 0, Int))
    requires types == [Str]
    ensures ArgumentTypesMatchInput(u.input, types) == TypeMismatch
    ensures !FirstScanStops(u, u.name, types)
  {
    assert !(u.input.value.variables[0].binding.value.ty == types[0]);
  }

  // ---------------------------------------------------------------------
  // Plugin groups

  /** `suffix` ends `s`. */
  predicate EndsWith<T(==)>(s: seq<T>, suffix: seq<T>)
  {
    |suffix| <= |s| && s[|s| - |suffix|..] == suffix
  }

  /** The bucket table `after` only gained plugin objects at the heads of
      `before`'s lists. */
  predicate Grown(after: seq<Bucket>, before: seq<Bucket>)
  {
    |after| == HashSize && |before| == HashSize &&
    forall h :: 0 <= h < HashSize ==>
      EndsWith(after[h].ffiObjects, before[h].ffiObjects) &&
      after[h].typedUnits == before[h].typedUnits &&
      after[h].templateUnits == before[h].templateUnits
  }

  lemma GrownTransitive(a: seq<Bucket>, b: seq<Bucket>, c: seq<Bucket>)
    requires Grown(a, b) && Grown(b, c)
    ensures Grown(a, c)
  {
    forall h | 0 <= h < HashSize
      ensures EndsWith(a[h].ffiObjects, c[h].ffiObjects)
    {
      var sa, sb, sc := a[h].ffiObjects, b[h].ffiObjects, c[h].ffiObjects;
      assert sa[|sa| - |sc|..] == sa[|sa| - |sb|..][|sb| - |sc|..];
    }
  }

  /** Growing a table keeps every object it held. */
  lemma GrownKeeps(after: seq<Bucket>, before: seq<Bucket>, x: FFIObject, h: nat)
    requires Grown(after, before) && h < HashSize && x in before[h].ffiObjects
    ensures x in after[h].ffiObjects
  {
    var s, t := after[h].ffiObjects, before[h].ffiObjects;
    assert t == s[|s| - |t|..];
    var i :| 0 <= i < |t| && t[i] == x;
    assert s[|s| - |t| + i] == x;
  }

  /** Put `obj` at the head of its name's bucket. */
  function PushFFIObject(buckets: seq<Bucket>, obj: FFIObject): (r: seq<Bucket>)
    requires |buckets| == HashSize
    ensures Grown(r, buckets)
    ensures obj in r[BucketOf(obj.def.name)].ffiObjects
  {
    var h := BucketOf(obj.def.name);
    var r := buckets[h := buckets[h].(ffiObjects := [obj] + buckets[h].ffiObjects)];
    assert forall g :: 0 <= g < HashSize && g != h ==> r[g] == buckets[g];
    assert r[h].ffiObjects[1..] == buckets[h].ffiObjects;
    r
  }

  lemma GrownReflexive(b: seq<Bucket>)
    requires |b| == HashSize
    ensures Grown(b, b)
  {
    forall h | 0 <= h < HashSize
      ensures EndsWith(b[h].ffiObjects, b[h].ffiObjects)
    {
      assert b[h].ffiObjects[0..] == b[h].ffiObjects;
    }
  }

  /** The hashing loop of TSDef_AddFFIGroup: the k-th function of group
      `gid` becomes the object in slot count-1-k and is pushed at the head of
      its bucket and of the registered objects. */
  method PushGroupFunctions(buckets: seq<Bucket>, registered: seq<FFIRef>, gid: nat, functions: seq<FFIFunction>)
    returns (buckets': seq<Bucket>, registered': seq<FFIRef>)
    requires |buckets| == HashSize
    ensures Grown(buckets', buckets)
    ensures forall k :: 0 <= k < |functions| ==>
              FFIObject(FFIRef(gid, |functions| - 1 - k), functions[k]) in
                buckets'[BucketOf(functions[k].name)].ffiObjects
    ensures |registered'| == |registered| + |functions| && registered'[|functions|..] == registered
  {
    var n := |functions|;
    buckets' := buckets;
    registered' := registered;
    GrownReflexive(buckets);
    var k := 0;
    while k < n
      invariant 0 <= k <= n
      invariant Grown(buckets', buckets)
      invariant forall j :: 0 <= j < k ==>
                  FFIObject(FFIRef(gid, n - 1 - j), functions[j]) in buckets'[BucketOf(functions[j].name)].ffiObjects
      invariant |registered'| == |registered| + k && registered'[k..] == registered
    {
      var obj := FFIObject(FFIRef(gid, n - 1 - k), functions[k]);
      var before := buckets';
      buckets' := PushFFIObject(buckets', obj);
      GrownTransitive(buckets', before, buckets);
      forall j | 0 <= j < k
        ensures FFIObject(FFIRef(gid, n - 1 - j), functions[j]) in buckets'[BucketOf(functions[j].name)].ffiObjects
      {
        GrownKeeps(buckets', before, FFIObject(FFIRef(gid, n - 1 - j), functions[j]), BucketOf(functions[j].name));
      }
      registered' := [obj.ref] + registered';
      k := k + 1;
    }
  }

  /** TSDef_AddFFIGroup: the group takes the next group id and goes at the
      head of the registered groups; its functions are hashed one by one,
      each pushed at the head of its bucket and of the registered objects.
      The k-th function lands in slot count-1-k of the group's array. */
  method AddFFIGroup(m: Module, name: string, functions: seq<FFIFunction>) returns (m': Module)
    requires WellSized(m)
    ensures WellSized(m')
    ensures |m'.groups| == |m.groups| + 1 && m'.groups[..|m.groups|] == m.groups
    ensures m'.groups[|m.groups|] == FFIGroup(name, |m.groups|, functions, false)
    ensures m'.registeredGroups == [|m.groups|] + m.registeredGroups
    ensures forall k :: 0 <= k < |functions| ==>
              FFIObject(FFIRef(|m.groups|, |functions| - 1 - k), functions[k]) in
                m'.buckets[BucketOf(functions[k].name)].ffiObjects
    ensures Grown(m'.buckets, m.buckets)
    ensures m'.referencedGroups == m.referencedGroups && m'.referencedFFI == m.referencedFFI
    ensures m'.ffiReferenced == m.ffiReferenced
    ensures m'.unresolvedUnits == m.unresolvedUnits && m'.referencedUnits == m.referencedUnits
  {
    var gid := |m.groups|;
    var buckets, registered := PushGroupFunctions(m.buckets, m.registeredFFI, gid, functions);
    m' := m.(buckets := buckets,
             groups := m.groups + [FFIGroup(name, gid, functions, false)],
             registeredGroups := [gid] + m.registeredGroups,
             registeredFFI := registered);
  }

  // ---------------------------------------------------------------------
  // Referenced units and plugin groups

  /** Referenced units carry distinct ids below the referenced count. */
  predicate UnitIdsDistinct(m: Module)
  {
    (forall j :: 0 <= j < |m.referencedUnits| ==> m.referencedUnits[j].unitId < m.referencedUnitCount) &&
    (forall i, j :: 0 <= i < j < |m.referencedUnits| ==>
       m.referencedUnits[i].unitId != m.referencedUnits[j].unitId)
  }

  /** TSDef_MarkUnitResolved: the unit takes the next unit id and moves from
      the unresolved list to the head of the referenced list. */
  function MarkUnitResolved(m: Module, i: nat): (m': Module)
    requires i < |m.unresolvedUnits|
    ensures m'.referencedUnitCount == m.referencedUnitCount + 1
    ensures m'.referencedUnits == [m.unresolvedUnits[i].(unitId := m.referencedUnitCount)] + m.referencedUnits
    ensures m'.unresolvedUnits == m.unresolvedUnits[..i] + m.unresolvedUnits[i + 1..]
    ensures |m'.unresolvedUnits| + |m'.referencedUnits| == |m.unresolvedUnits| + |m.referencedUnits|
    ensures UnitIdsDistinct(m) ==> UnitIdsDistinct(m')
    ensures m'.buckets == m.buckets && m'.groups == m.groups
  {
    var u := m.unresolvedUnits[i].(unitId := m.referencedUnitCount);
    m.(referencedUnitCount := m.referencedUnitCount + 1,
       referencedUnits := [u] + m.referencedUnits,
       unresolvedUnits := m.unresolvedUnits[..i] + m.unresolvedUnits[i + 1..])
  }

  /** `s` without any occurrence of `x`. */
  function Without<T(==,!new)>(s: seq<T>, x: T): (r: seq<T>)
    ensures forall y :: y in r <==> y in s && y != x
    ensures |r| <= |s|
  {
    if |s| == 0 then []
    else if s[0] == x then Without(s[1..], x)
    else [s[0]] + Without(s[1..], x)
  }

  /** Every group is on exactly one of the two group lists, the referenced
      one exactly when its REFERENCED flag is set. */
  predicate GroupListsPartitioned(m: Module)
  {
    forall g :: 0 <= g < |m.groups| ==>
      (g in m.referencedGroups <==> m.groups[g].referenced) &&
      (g in m.registeredGroups <==> !m.groups[g].referenced)
  }

  /** An object is on the referenced list exactly when its REFERENCED flag is
      set, and then not on the registered list. */
  predicate FFIListsPartitioned(m: Module)
  {
    (forall r :: r in m.referencedFFI ==> r in m.ffiReferenced) &&
    (forall r :: r in m.ffiReferenced ==> r in m.referencedFFI) &&
    (forall r :: r in m.registeredFFI ==> r !in m.ffiReferenced)
  }

  /** TSDef_ReferenceFFI: the first reference to a plugin function moves its
      group and the object itself to the referenced lists and sets their
      REFERENCED flags; once both flags are set a reference changes nothing,
      so the operation is idempotent. */
  function ReferenceFFI(m: Module, obj: FFIRef): (m': Module)
    requires obj.groupId < |m.groups|
    ensures |m'.groups| == |m.groups| && m'.ffiReferenced == m.ffiReferenced + {obj}
    ensures m'.groups[obj.groupId].referenced && obj in m'.ffiReferenced
    ensures m.groups[obj.groupId].referenced && obj in m.ffiReferenced ==> m' == m
    ensures forall g :: 0 <= g < |m.groups| && g != obj.groupId ==> m'.groups[g] == m.groups[g]
    ensures GroupListsPartitioned(m) ==> obj.groupId in m'.referencedGroups && obj.groupId !in m'.registeredGroups
    ensures FFIListsPartitioned(m) ==> obj in m'.referencedFFI && obj !in m'.registeredFFI
    ensures GroupListsPartitioned(m) ==> GroupListsPartitioned(m')
    ensures FFIListsPartitioned(m) ==> FFIListsPartitioned(m')
    ensures WellSized(m) ==> WellSized(m')
    ensures m'.buckets == m.buckets && m'.referencedUnits == m.referencedUnits
  {
    var g := obj.groupId;
    var m1 :=
      if !m.groups[g].referenced then
        m.(registeredGroups := Without(m.registeredGroups, g),
           referencedGroups := [g] + m.referencedGroups,
           groups := m.groups[g := m.groups[g].(referenced := true)])
      else m;
    assert GroupListsPartitioned(m) && m.groups[g].referenced ==> g in m1.referencedGroups && g !in m1.registeredGroups;
    if obj !in m1.ffiReferenced then
      m1.(registeredFFI := Without(m1.registeredFFI, obj),
          referencedFFI := [obj] + m1.referencedFFI,
          ffiReferenced := m1.ffiReferenced + {obj})
    else m1
  }
}

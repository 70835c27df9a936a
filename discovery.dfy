/**
 * The discovery pass of ModMenuPatcher.Initialize, with reflection replaced by plain records:
 * every loaded assembly, its types, and the methods GetMethods returns for each type. The
 * exceptions reflection can throw are oracle flags on the records.
 */
module Discovery {
  import opened Wrappers
  import opened MenuLabel
  import opened Registry

  /** The [ModMenuEntry] attribute as seen by name: absent, or present with its MenuName value
      (None when the property is missing or is not a string). */
  datatype EntryTag = NoTag | Tag(menuName: Option<string>)

  /** A method as GetMethods(Public | NonPublic | Static | Instance) reports it.
      attributesThrow: reading its attribute throws, either in GetCustomAttributes or in the
      MenuName getter called through GetValue. (A type whose GetMethods throws is a type with no
      methods: either way the type adds nothing.)
      bindThrows: Delegate.CreateDelegate (or, for an instance method, Activator.CreateInstance)
      throws for it. handle identifies the delegate bound to it. */
  datatype MethodInfo = MethodInfo(
    name: string, isStatic: bool, isPublic: bool, tag: EntryTag,
    handle: CallbackId, attributesThrow: bool, bindThrows: bool)

  datatype TypeInfo = TypeInfo(name: string, methods: seq<MethodInfo>)

  /** typesThrow: Assembly.GetTypes throws (for example a ReflectionTypeLoadException). */
  datatype AssemblyInfo = AssemblyInfo(name: string, types: seq<TypeInfo>, typesThrow: bool)

  /** The methods the naming convention accepts: public static CreateModMenu or DrawModMenu. */
  predicate IsConventionMethod(m: MethodInfo) {
    m.isStatic && m.isPublic && (m.name == "CreateModMenu" || m.name == "DrawModMenu")
  }

  predicate StartsWith(s: string, prefix: string) {
    prefix <= s
  }

  /** Runtime and platform assemblies are skipped. */
  predicate IsExcluded(assemblyName: string) {
    StartsWith(assemblyName, "System") || StartsWith(assemblyName, "Microsoft")
    || StartsWith(assemblyName, "netstandard") || StartsWith(assemblyName, "mscorlib")
  }

  /** menuName when shouldAdd is set, None otherwise: the attribute rule first, the naming
      convention only for a method without the attribute. */
  function MenuNameOf(typeName: string, m: MethodInfo): Option<string> {
    match m.tag
    case Tag(menuName) => menuName
    case NoTag =>
      if IsConventionMethod(m) then Some(ConventionLabel(typeName))
      else None
  }

  /** The name an entry for m is registered under, if any: only non-null, non-empty names. */
  function EntryName(typeName: string, m: MethodInfo): (r: Option<string>)
    ensures r.Some? ==> r.value != [] && MenuNameOf(typeName, m) == r
    ensures r.None? <==> MenuNameOf(typeName, m) in {None, Some([])}
  {
    match MenuNameOf(typeName, m)
    case Some(n) => if n != [] then Some(n) else None
    case None => None
  }

  /** Handling m throws, which abandons the rest of its type. */
  predicate ScanThrows(typeName: string, m: MethodInfo) {
    m.attributesThrow || (EntryName(typeName, m).Some? && m.bindThrows)
  }

  function EntriesOf(typeName: string, m: MethodInfo): seq<ModEntry> {
    match EntryName(typeName, m)
    case Some(n) => [ModEntry(n, m.handle)]
    case None => []
  }

  /** The entries one type adds: method by method, until handling one of them throws. */
  function ScanMethods(typeName: string, ms: seq<MethodInfo>): (r: seq<ModEntry>)
    ensures |r| <= |ms|
    ensures forall e :: e in r ==> e.name != []
  {
    if ms == [] then []
    else if ScanThrows(typeName, ms[0]) then []
    else EntriesOf(typeName, ms[0]) + ScanMethods(typeName, ms[1..])
  }

  function ScanTypes(ts: seq<TypeInfo>): (r: seq<ModEntry>)
    ensures forall e :: e in r ==> e.name != []
  {
    if ts == [] then [] else ScanMethods(ts[0].name, ts[0].methods) + ScanTypes(ts[1..])
  }

  /** An assembly that is excluded, or whose GetTypes throws, adds nothing. */
  function ScanAssembly(a: AssemblyInfo): (r: seq<ModEntry>)
    ensures forall e :: e in r ==> e.name != []
  {
    if IsExcluded(a.name) || a.typesThrow then [] else ScanTypes(a.types)
  }

  /** The entries the whole pass appends, in the order it appends them. */
  function Discover(assemblies: seq<AssemblyInfo>): (r: seq<ModEntry>)
    ensures forall e :: e in r ==> e.name != []
  {
    if assemblies == [] then [] else ScanAssembly(assemblies[0]) + Discover(assemblies[1..])
  }

  /** Scanning two lists of types one after the other gives the entries of both, in order. */
  lemma {:induction false} ScanTypesAppend(a: seq<TypeInfo>, b: seq<TypeInfo>)
    ensures ScanTypes(a + b) == ScanTypes(a) + ScanTypes(b)
  {
    if a == [] {
      assert a + b == b;
    } else {
      assert (a + b)[1..] == a[1..] + b;
      ScanTypesAppend(a[1..], b);
    }
  }

  /** Scanning two lists of assemblies one after the other gives the entries of both, in order. */
  lemma {:induction false} DiscoverAppend(a: seq<AssemblyInfo>, b: seq<AssemblyInfo>)
    ensures Discover(a + b) == Discover(a) + Discover(b)
  {
    if a == [] {
      assert a + b == b;
    } else {
      assert (a + b)[1..] == a[1..] + b;
      DiscoverAppend(a[1..], b);
    }
  }

  /** One more type scanned: its entries follow those of the types before it. */
  lemma ScanTypesSnoc(ts: seq<TypeInfo>, k: nat)
    requires k < |ts|
    ensures ScanTypes(ts[..k + 1]) == ScanTypes(ts[..k]) + ScanMethods(ts[k].name, ts[k].methods)
  {
    ScanTypesAppend(ts[..k], [ts[k]]);
    assert ts[..k + 1] == ts[..k] + [ts[k]];
    assert [ts[k]][1..] == [];
  }

  /** One more assembly scanned: its entries follow those of the assemblies before it. */
  lemma DiscoverSnoc(assemblies: seq<AssemblyInfo>, k: nat)
    requires k < |assemblies|
    ensures Discover(assemblies[..k + 1]) == Discover(assemblies[..k]) + ScanAssembly(assemblies[k])
  {
    DiscoverAppend(assemblies[..k], [assemblies[k]]);
    assert assemblies[..k + 1] == assemblies[..k] + [assemblies[k]];
    assert [assemblies[k]][1..] == [];
  }

  /** One more method handled: its entries follow those of the methods before it. */
  lemma ScanMethodsSnoc(typeName: string, ms: seq<MethodInfo>, k: nat)
    requires k < |ms| && forall j :: 0 <= j < k ==> !ScanThrows(typeName, ms[j])
    ensures !ScanThrows(typeName, ms[k]) ==>
      ScanMethods(typeName, ms[..k + 1]) == ScanMethods(typeName, ms[..k]) + EntriesOf(typeName, ms[k])
  {
    var p := ms[..k + 1];
    EarlierEntriesKept(typeName, p, k);
    assert p[..k] == ms[..k];
    assert p[k..] == [ms[k]];
    assert [ms[k]][1..] == [];
  }

  /** The body of the per-type try block: the entries found in t's methods. An exception from
      one method ends the type; the entries found before it are kept. */
  method ScanType(t: TypeInfo) returns (found: seq<ModEntry>)
    ensures found == ScanMethods(t.name, t.methods)
  {
    found := [];
    var k := 0;
    while k < |t.methods|
      invariant 0 <= k <= |t.methods|
      invariant forall j :: 0 <= j < k ==> !ScanThrows(t.name, t.methods[j])
      invariant found == ScanMethods(t.name, t.methods[..k])
    {
      var m := t.methods[k];
      ScanMethodsSnoc(t.name, t.methods, k);
      if m.attributesThrow {
        StopsAtThrow(t.name, t.methods, k);
        break;
      }
      // shouldAdd && !IsNullOrEmpty(menuName) holds exactly when menuName is Some and non-empty
      var menuName := MenuNameOf(t.name, m);
      if menuName.Some? && menuName.value != [] {
        if m.bindThrows {
          StopsAtThrow(t.name, t.methods, k);
          break;
        }
        found := found + [ModEntry(menuName.value, m.handle)];
      }
      k := k + 1;
    }
    if k == |t.methods| {
      assert t.methods[..k] == t.methods;
    }
  }

  /** The body of the per-assembly try block: the entries of each type in turn. */
  method ScanTypeList(types: seq<TypeInfo>) returns (found: seq<ModEntry>)
    ensures found == ScanTypes(types)
  {
    found := [];
    var ti := 0;
    while ti < |types|
      invariant 0 <= ti <= |types|
      invariant found == ScanTypes(types[..ti])
    {
      ScanTypesSnoc(types, ti);
      var entries := ScanType(types[ti]);
      found := found + entries;
      ti := ti + 1;
    }
    assert types[..ti] == types;
  }

  /** The scan over every loaded assembly: the excluded ones and those whose types cannot be
      loaded are skipped, and the entries of the rest are collected in order. */
  method DiscoverEntries(assemblies: seq<AssemblyInfo>) returns (found: seq<ModEntry>)
    ensures found == Discover(assemblies)
  {
    found := [];
    var ai := 0;
    while ai < |assemblies|
      invariant 0 <= ai <= |assemblies|
      invariant found == Discover(assemblies[..ai])
    {
      var assembly := assemblies[ai];
      DiscoverSnoc(assemblies, ai);
      if !IsExcluded(assembly.name) && !assembly.typesThrow {
        var entries := ScanTypeList(assembly.types);
        found := found + entries;
      }
      ai := ai + 1;
    }
    assert assemblies[..ai] == assemblies;
  }

  // ---------------------------------------------------------------- rule selection

  /** The attribute rule wins: a method with the attribute is registered under its MenuName,
      whatever its own name, visibility or type, and not at all when MenuName is null or empty. */
  lemma AttributeWins(typeName: string, m: MethodInfo, otherType: string, other: MethodInfo)
    requires m.tag.Tag? && other.tag == m.tag
    ensures EntryName(typeName, m) == EntryName(otherType, other)
    ensures EntryName(typeName, m).Some? <==> m.tag.menuName.Some? && m.tag.menuName.value != []
    ensures EntryName(typeName, m).Some? ==> EntryName(typeName, m) == m.tag.menuName
  {
  }

  /** Without the attribute a method is registered exactly when it is static, public and named
      CreateModMenu or DrawModMenu, under the label derived from its type's name. */
  lemma ConventionRule(typeName: string, m: MethodInfo)
    requires m.tag == NoTag
    ensures EntryName(typeName, m).Some? <==>
      m.isStatic && m.isPublic && (m.name == "CreateModMenu" || m.name == "DrawModMenu") && typeName != []
    ensures EntryName(typeName, m).Some? ==> EntryName(typeName, m).value == ConventionLabel(typeName)
  {
    ConventionLabelShape(typeName);
  }

  // ---------------------------------------------------------------- exceptions

  /** Once handling a method throws, nothing after it in the same type is registered. */
  lemma {:induction false} StopsAtThrow(typeName: string, ms: seq<MethodInfo>, k: nat)
    requires k < |ms| && ScanThrows(typeName, ms[k])
    ensures ScanMethods(typeName, ms) == ScanMethods(typeName, ms[..k])
  {
    if k > 0 && !ScanThrows(typeName, ms[0]) {
      assert ms[..k][1..] == ms[1..][..k - 1];
      StopsAtThrow(typeName, ms[1..], k - 1);
    }
  }

  /** Entries found before a method throws stay: while no method of the first k throws, the
      type's entries start with theirs. */
  lemma {:induction false} EarlierEntriesKept(typeName: string, ms: seq<MethodInfo>, k: nat)
    requires k <= |ms| && forall j :: 0 <= j < k ==> !ScanThrows(typeName, ms[j])
    ensures ScanMethods(typeName, ms) == ScanMethods(typeName, ms[..k]) + ScanMethods(typeName, ms[k..])
  {
    if k > 0 {
      assert ms[..k][1..] == ms[1..][..k - 1];
      assert ms[k..] == ms[1..][k - 1..];
      EarlierEntriesKept(typeName, ms[1..], k - 1);
    } else {
      assert ms[..0] == [] && ms[0..] == ms;
    }
  }

  /** When nothing throws, every method a rule selects is registered. */
  lemma {:induction false} CompleteWithoutThrows(typeName: string, ms: seq<MethodInfo>, j: nat)
    requires forall i :: 0 <= i < |ms| ==> !ScanThrows(typeName, ms[i])
    requires j < |ms| && EntryName(typeName, ms[j]).Some?
    ensures ModEntry(EntryName(typeName, ms[j]).value, ms[j].handle) in ScanMethods(typeName, ms)
  {
    if j > 0 {
      CompleteWithoutThrows(typeName, ms[1..], j - 1);
    }
  }

  // ---------------------------------------------------------------- the whole pass

  /** Handling the methods of t up to and including the j-th throws nothing. */
  predicate ReachedWithoutThrow(t: TypeInfo, j: nat) {
    j < |t.methods| && forall i :: 0 <= i <= j ==> !ScanThrows(t.name, t.methods[i])
  }

  /** Every discovered entry comes from the j-th method of type ti of assembly ai: the assembly
      is not excluded and its types load, no method of that type up to this one throws, and a
      rule selects this one, under the entry's name and with its callback. With DiscoverComplete
      this pins down exactly which methods are registered. */
  lemma {:induction false} DiscoveredFrom(assemblies: seq<AssemblyInfo>, e: ModEntry)
    returns (ai: nat, ti: nat, j: nat)
    requires e in Discover(assemblies)
    ensures ai < |assemblies| && !IsExcluded(assemblies[ai].name) && !assemblies[ai].typesThrow
    ensures ti < |assemblies[ai].types| && ReachedWithoutThrow(assemblies[ai].types[ti], j)
    ensures var t := assemblies[ai].types[ti];
      EntryName(t.name, t.methods[j]) == Some(e.name) && e.callback == t.methods[j].handle
  {
    if e in ScanAssembly(assemblies[0]) {
      ai := 0;
      ti, j := FoundInTypes(assemblies[0].types, e);
    } else {
      var ai', ti', j' := DiscoveredFrom(assemblies[1..], e);
      assert assemblies[1..][ai'] == assemblies[ai' + 1];
      ai, ti, j := ai' + 1, ti', j';
    }
  }

  lemma {:induction false} FoundInTypes(ts: seq<TypeInfo>, e: ModEntry) returns (ti: nat, j: nat)
    requires e in ScanTypes(ts)
    ensures ti < |ts| && ReachedWithoutThrow(ts[ti], j)
    ensures EntryName(ts[ti].name, ts[ti].methods[j]) == Some(e.name) && e.callback == ts[ti].methods[j].handle
  {
    if e in ScanMethods(ts[0].name, ts[0].methods) {
      ti := 0;
      j := FoundInMethods(ts[0].name, ts[0].methods, e);
    } else {
      var ti', j' := FoundInTypes(ts[1..], e);
      assert ts[1..][ti'] == ts[ti' + 1];
      ti, j := ti' + 1, j';
    }
  }

  lemma {:induction false} FoundInMethods(typeName: string, ms: seq<MethodInfo>, e: ModEntry) returns (j: nat)
    requires e in ScanMethods(typeName, ms)
    ensures j < |ms| && forall i :: 0 <= i <= j ==> !ScanThrows(typeName, ms[i])
    ensures EntryName(typeName, ms[j]) == Some(e.name) && e.callback == ms[j].handle
  {
    if e in EntriesOf(typeName, ms[0]) {
      j := 0;
    } else {
      var j' := FoundInMethods(typeName, ms[1..], e);
      j := j' + 1;
      forall i | 0 <= i <= j
        ensures !ScanThrows(typeName, ms[i])
      {
        if i > 0 {
          assert ms[i] == ms[1..][i - 1];
        }
      }
    }
  }

  /** A selected method of type ti of assembly ai is registered, under its name and with its
      callback, when the assembly is not excluded, its types load, and handling the methods of
      that type up to and including this one throws nothing. */
  lemma DiscoverComplete(assemblies: seq<AssemblyInfo>, ai: nat, ti: nat, j: nat)
    requires ai < |assemblies| && !IsExcluded(assemblies[ai].name) && !assemblies[ai].typesThrow
    requires ti < |assemblies[ai].types| && ReachedWithoutThrow(assemblies[ai].types[ti], j)
    requires EntryName(assemblies[ai].types[ti].name, assemblies[ai].types[ti].methods[j]).Some?
    ensures var t := assemblies[ai].types[ti];
      ModEntry(EntryName(t.name, t.methods[j]).value, t.methods[j].handle) in Discover(assemblies)
  {
    var t := assemblies[ai].types[ti];
    var e := ModEntry(EntryName(t.name, t.methods[j]).value, t.methods[j].handle);
    FoundInMethodPrefix(t.name, t.methods, j);
    InScanTypes(assemblies[ai].types, ti, e);
    InDiscover(assemblies, ai, e);
  }

  lemma {:induction false} InScanTypes(ts: seq<TypeInfo>, ti: nat, e: ModEntry)
    requires ti < |ts| && e in ScanMethods(ts[ti].name, ts[ti].methods)
    ensures e in ScanTypes(ts)
  {
    assert ScanTypes(ts) == ScanMethods(ts[0].name, ts[0].methods) + ScanTypes(ts[1..]);
    if ti > 0 {
      assert ts[1..][ti - 1] == ts[ti];
      InScanTypes(ts[1..], ti - 1, e);
    }
  }

  lemma {:induction false} InDiscover(assemblies: seq<AssemblyInfo>, ai: nat, e: ModEntry)
    requires ai < |assemblies| && e in ScanAssembly(assemblies[ai])
    ensures e in Discover(assemblies)
  {
    assert Discover(assemblies) == ScanAssembly(assemblies[0]) + Discover(assemblies[1..]);
    if ai > 0 {
      assert assemblies[1..][ai - 1] == assemblies[ai];
      InDiscover(assemblies[1..], ai - 1, e);
    }
  }

  /** A selected method is registered when no method of its type up to it throws. */
  lemma FoundInMethodPrefix(typeName: string, ms: seq<MethodInfo>, j: nat)
    requires j < |ms| && forall i :: 0 <= i <= j ==> !ScanThrows(typeName, ms[i])
    requires EntryName(typeName, ms[j]).Some?
    ensures ModEntry(EntryName(typeName, ms[j]).value, ms[j].handle) in ScanMethods(typeName, ms)
  {
    EarlierEntriesKept(typeName, ms, j + 1);
    CompleteWithoutThrows(typeName, ms[..j + 1], j);
  }

  /** An excluded assembly contributes nothing: removing it leaves the result unchanged. */
  lemma {:induction false} ExcludedAssemblyIgnored(assemblies: seq<AssemblyInfo>, k: nat)
    requires k < |assemblies| && IsExcluded(assemblies[k].name)
    ensures Discover(assemblies) == Discover(assemblies[..k] + assemblies[k + 1..])
  {
    if k == 0 {
      assert assemblies[..0] + assemblies[1..] == assemblies[1..];
    } else {
      var rest := assemblies[..k] + assemblies[k + 1..];
      assert rest[0] == assemblies[0];
      assert rest[1..] == assemblies[1..][..k - 1] + assemblies[1..][k..];
      ExcludedAssemblyIgnored(assemblies[1..], k - 1);
    }
  }

  /** The four excluded prefixes match names such as System.Core, and only as prefixes. */
  lemma ExclusionExamples()
    ensures IsExcluded("System.Core") && IsExcluded("Microsoft.CSharp")
    ensures IsExcluded("netstandard") && IsExcluded("mscorlib")
    ensures !IsExcluded("ModMenu") && !IsExcluded("MySystem") && !IsExcluded("system")
  {
    assert "System.Core"[..6] == "System";
    assert "Microsoft.CSharp"[..9] == "Microsoft";
    assert "ModMenu"[0] != "System"[0] && "MySystem"[0] != "System"[0] && "system"[0] != "System"[0];
    assert "MySystem"[0] != "mscorlib"[0];
  }
}

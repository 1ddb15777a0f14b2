/**
 * The asset layer of the split revision: dotted resource keys, model
 * definitions with ordered includes, and the type-keyed resource manager.
 * JSON decoding is not modelled; definitions arrive already parsed.
 */
module Assets {
  import opened Wrappers

  // ---------------------------------------------------------------------------
  // Hexadecimal parsing, as `u32::from_str_radix(s, 16)` does it
  // ---------------------------------------------------------------------------

  function HexDigit(c: char): Option<nat> {
    if '0' <= c <= '9' then Some(c as nat - '0' as nat)
    else if 'a' <= c <= 'f' then Some(c as nat - 'a' as nat + 10)
    else if 'A' <= c <= 'F' then Some(c as nat - 'A' as nat + 10)
    else None
  }

  predicate AllHexDigits(s: string) {
    forall i :: 0 <= i < |s| ==> HexDigit(s[i]).Some?
  }

  /** The value of a string of hex digits, most significant first. */
  function HexValue(s: string): nat
    requires AllHexDigits(s)
  {
    if |s| == 0 then 0 else HexValue(s[..|s| - 1]) * 16 + HexDigit(s[|s| - 1]).value
  }

  /** The digits after an optional leading '+', which Rust accepts for unsigned types. */
  function HexBody(s: string): string {
    if |s| > 0 && s[0] == '+' then s[1..] else s
  }

  /** Empty input, a bare '+', any non-hex character and any value of 2^32 or more are errors. */
  function ParseHexU32(s: string): (r: Option<nat>)
    ensures r.Some? ==> r.value < 0x1_0000_0000
    ensures r.Some? <==> |HexBody(s)| > 0 && AllHexDigits(HexBody(s)) && HexValue(HexBody(s)) < 0x1_0000_0000
  {
    var body := HexBody(s);
    if |body| == 0 || !AllHexDigits(body) then None
    else if HexValue(body) >= 0x1_0000_0000 then None
    else Some(HexValue(body))
  }

  /** Lower-case hexadecimal without leading zeros: a reference printer to state the parser against. */
  function ToHex(n: nat): (s: string)
    ensures |s| > 0 && AllHexDigits(s)
    decreases n
  {
    var d := n % 16;
    var c := if d < 10 then ('0' as int + d) as char else ('a' as int + d - 10) as char;
    if n < 16 then [c] else ToHex(n / 16) + [c]
  }

  lemma {:induction false} HexValueToHex(n: nat)
    ensures HexValue(ToHex(n)) == n
    decreases n
  {
    var s := ToHex(n);
    assert s[..|s| - 1] == if n < 16 then [] else ToHex(n / 16);
    if n >= 16 {
      HexValueToHex(n / 16);
    }
  }

  /** Printing then parsing gives the number back, for every u32. */
  lemma ParseToHex(n: nat)
    requires n < 0x1_0000_0000
    ensures ParseHexU32(ToHex(n)) == Some(n)
  {
    HexValueToHex(n);
    assert HexBody(ToHex(n)) == ToHex(n);
  }

  // ---------------------------------------------------------------------------
  // Splitting on '.'
  // ---------------------------------------------------------------------------

  /** `str::split('.')`: the pieces between dots, empty pieces included. */
  function Split(s: string): (parts: seq<string>)
    ensures |parts| > 0
    ensures forall i :: 0 <= i < |parts| ==> '.' !in parts[i]
    decreases |s|
  {
    if '.' !in s then [s]
    else
      var i := FirstDot(s);
      [s[..i]] + Split(s[i + 1..])
  }

  function FirstDot(s: string): (i: nat)
    requires '.' in s
    ensures i < |s| && s[i] == '.' && '.' !in s[..i]
  {
    if s[0] == '.' then 0 else 1 + FirstDot(s[1..])
  }

  function Join(parts: seq<string>): string
    requires |parts| > 0
  {
    if |parts| == 1 then parts[0] else parts[0] + "." + Join(parts[1..])
  }

  /** Splitting loses nothing: joining the pieces with '.' gives the input back. */
  lemma {:induction false} JoinSplit(s: string)
    ensures Join(Split(s)) == s
    decreases |s|
  {
    if '.' in s {
      var i := FirstDot(s);
      JoinSplit(s[i + 1..]);
      assert s == s[..i] + "." + s[i + 1..];
    }
  }

  /** And joining dot-free pieces then splitting gives the pieces back. */
  lemma {:induction false} SplitJoin(parts: seq<string>)
    requires |parts| > 0
    requires forall i :: 0 <= i < |parts| ==> '.' !in parts[i]
    ensures Split(Join(parts)) == parts
    decreases |parts|
  {
    if |parts| > 1 {
      var s := Join(parts);
      assert s == parts[0] + "." + Join(parts[1..]);
      assert s[|parts[0]|] == '.';
      assert '.' in s;
      assert s[..|parts[0]|] == parts[0];
      FirstDotAfter(parts[0], Join(parts[1..]));
      assert s[|parts[0]| + 1..] == Join(parts[1..]);
      SplitJoin(parts[1..]);
    }
  }

  lemma FirstDotAfter(a: string, b: string)
    requires '.' !in a
    ensures FirstDot(a + "." + b) == |a|
    decreases |a|
  {
    if |a| > 0 {
      assert a[0] in a;
      assert (a + "." + b)[1..] == a[1..] + "." + b;
      FirstDotAfter(a[1..], b);
    }
  }

  // ---------------------------------------------------------------------------
  // Keys
  // ---------------------------------------------------------------------------

  datatype KeyPart = Numeric(n: nat) | Text(t: string)

  datatype Key = Key(parts: seq<KeyPart>)

  /** One segment: Numeric when it reads as a hexadecimal u32, Text otherwise. */
  function ClassifySegment(seg: string): (p: KeyPart)
    ensures p.Numeric? <==> ParseHexU32(seg).Some?
    ensures p.Text? ==> p.t == seg
    ensures p.Numeric? ==> p.n < 0x1_0000_0000
  {
    match ParseHexU32(seg)
    case Some(v) => Numeric(v)
    case None => Text(seg)
  }

  function ClassifyAll(segs: seq<string>): (ps: seq<KeyPart>)
    ensures |ps| == |segs|
    ensures forall i :: 0 <= i < |segs| ==> ps[i] == ClassifySegment(segs[i])
  {
    if |segs| == 0 then [] else [ClassifySegment(segs[0])] + ClassifyAll(segs[1..])
  }

  /**
   * `Key::from_str`: one part per dot-separated segment, and an error unless
   * the first part is Text, since the first part names the category.
   */
  function ParseKey(s: string): (r: Result<Key, string>)
    ensures r.Err? <==> ParseHexU32(Split(s)[0]).Some?
    ensures r.Ok? ==> |r.value.parts| == |Split(s)| && r.value.parts[0] == Text(Split(s)[0])
    ensures r.Ok? ==> forall i :: 0 <= i < |Split(s)| ==>
      (r.value.parts[i].Text? ==> r.value.parts[i].t == Split(s)[i])
      && (r.value.parts[i].Numeric? <==> ParseHexU32(Split(s)[i]).Some?)
  {
    var parts := ClassifyAll(Split(s));
    if !parts[0].Text? then Err("Path must start with a text part to define the category")
    else Ok(Key(parts))
  }

  /** Words made only of the letters a to f, such as "add" or "face", are numbers, so they cannot lead a key. */
  lemma HexLookingCategoryRejected()
    ensures ParseKey("add.x").Err?
  {
    var s := "add.x";
    assert s[3] == '.' && '.' in s;
    assert FirstDot(s) == 3;
    assert Split(s)[0] == "add";
    assert HexBody("add") == "add";
    assert HexValue("add") == 0xadd by {
      assert "add"[..2] == "ad" && "ad"[..1] == "a" && "a"[..0] == "";
    }
  }

  // ---------------------------------------------------------------------------
  // Model definitions
  // ---------------------------------------------------------------------------

  datatype Vec3r = Vec3r(x: real, y: real, z: real)

  /** A cuboid from `from` to `to`, in block units. */
  datatype Cube = Cube(from: Vec3r, to: Vec3r)

  /** A texture rectangle (min, max) in atlas pixels. */
  datatype UvRect = UvRect(minX: nat, minY: nat, maxX: nat, maxY: nat)

  /** One rectangle per face, in face-template order; the JSON holds six. */
  type CubeUvs = seq<UvRect>

  datatype RawModelDef = RawModelDef(includes: seq<string>, cubes: seq<Cube>, uvs: seq<CubeUvs>)

  datatype ModelDef = ModelDef(cubes: seq<Cube>, uvs: seq<CubeUvs>)

  /** The JSON object is an IndexMap: names are distinct and keep file order. */
  predicate DistinctNames(raw: seq<(string, RawModelDef)>) {
    forall i, j :: 0 <= i < j < |raw| ==> raw[i].0 != raw[j].0
  }

  function Names(raw: seq<(string, RawModelDef)>): set<string> {
    set i | 0 <= i < |raw| :: raw[i].0
  }

  /** The cubes, then the uvs, of the included models, concatenated in include order. */
  function IncludedCubes(m: map<string, ModelDef>, incs: seq<string>): seq<Cube>
    requires forall k :: 0 <= k < |incs| ==> incs[k] in m
  {
    if |incs| == 0 then [] else m[incs[0]].cubes + IncludedCubes(m, incs[1..])
  }

  function IncludedUvs(m: map<string, ModelDef>, incs: seq<string>): seq<CubeUvs>
    requires forall k :: 0 <= k < |incs| ==> incs[k] in m
  {
    if |incs| == 0 then [] else m[incs[0]].uvs + IncludedUvs(m, incs[1..])
  }

  /** The include loop of one model: append each included model in turn, or stop at the first missing one. */
  function ResolveIncludes(m: map<string, ModelDef>, name: string, incs: seq<string>, acc: ModelDef): (r: Result<ModelDef, string>)
    ensures r.Ok? <==> forall k :: 0 <= k < |incs| ==> incs[k] in m
    ensures r.Ok? ==> r.value == ModelDef(acc.cubes + IncludedCubes(m, incs), acc.uvs + IncludedUvs(m, incs))
    ensures r.Err? ==> (exists k :: 0 <= k < |incs| && incs[k] !in m
                         && r.error == "Included model '" + incs[k] + "' not found for model '" + name + "'")
  {
    if |incs| == 0 then Ok(acc)
    else if incs[0] !in m then Err("Included model '" + incs[0] + "' not found for model '" + name + "'")
    else
      var r := ResolveIncludes(m, name, incs[1..], ModelDef(acc.cubes + m[incs[0]].cubes, acc.uvs + m[incs[0]].uvs));
      assert r.Ok? ==> r.value.cubes == acc.cubes + IncludedCubes(m, incs);
      assert r.Err? ==> forall k :: 0 <= k < |incs[1..]| ==> incs[1..][k] == incs[k + 1];
      r
  }

  /** `ModelDefs::new`, over the first `k` definitions in file order. */
  function BuildPrefix(raw: seq<(string, RawModelDef)>, k: nat): Result<map<string, ModelDef>, string>
    requires k <= |raw|
  {
    if k == 0 then Ok(map[])
    else
      match BuildPrefix(raw, k - 1)
      case Err(e) => Err(e)
      case Ok(m) =>
        var (name, def) := raw[k - 1];
        match ResolveIncludes(m, name, def.includes, ModelDef(def.cubes, def.uvs))
        case Err(e) => Err(e)
        case Ok(d) => Ok(m[name := d])
  }

  function BuildModelDefs(raw: seq<(string, RawModelDef)>): Result<map<string, ModelDef>, string> {
    BuildPrefix(raw, |raw|)
  }

  /** Every include of definition i names a definition that comes strictly earlier in the file. */
  predicate IncludesResolvable(raw: seq<(string, RawModelDef)>) {
    forall i, k :: 0 <= i < |raw| && 0 <= k < |raw[i].1.includes| ==> raw[i].1.includes[k] in Names(raw[..i])
  }

  /**
   * What a successful build holds: exactly the defined names, and each model
   * is its own cubes and uvs followed by those of its includes in order.
   */
  predicate WellResolved(raw: seq<(string, RawModelDef)>, m: map<string, ModelDef>) {
    m.Keys == Names(raw)
    && forall i :: 0 <= i < |raw| ==>
      (forall k :: 0 <= k < |raw[i].1.includes| ==> raw[i].1.includes[k] in m)
      && m[raw[i].0] == ModelDef(raw[i].1.cubes + IncludedCubes(m, raw[i].1.includes),
                                 raw[i].1.uvs + IncludedUvs(m, raw[i].1.includes))
  }

  lemma IncludedUnchanged(m: map<string, ModelDef>, m': map<string, ModelDef>, incs: seq<string>)
    requires forall k :: 0 <= k < |incs| ==> incs[k] in m
    requires forall n :: n in m ==> n in m' && m'[n] == m[n]
    ensures IncludedCubes(m', incs) == IncludedCubes(m, incs)
    ensures IncludedUvs(m', incs) == IncludedUvs(m, incs)
  {
    if |incs| > 0 {
      IncludedUnchanged(m, m', incs[1..]);
    }
  }

  lemma NamesSnoc(pre: seq<(string, RawModelDef)>, x: (string, RawModelDef))
    ensures Names(pre + [x]) == Names(pre) + {x.0}
  {
    assert forall i :: 0 <= i < |pre| ==> (pre + [x])[i] == pre[i];
    assert (pre + [x])[|pre|] == x;
  }

  lemma ResolvableSnoc(pre: seq<(string, RawModelDef)>, x: (string, RawModelDef))
    ensures IncludesResolvable(pre + [x]) <==>
      IncludesResolvable(pre) && forall j :: 0 <= j < |x.1.includes| ==> x.1.includes[j] in Names(pre)
  {
    var s := pre + [x];
    assert s[..|pre|] == pre;
    assert s[|pre|] == x;
    assert forall i :: 0 <= i < |pre| ==> s[i] == pre[i] && s[..i] == pre[..i];
    if IncludesResolvable(s) {
      forall j | 0 <= j < |x.1.includes| ensures x.1.includes[j] in Names(pre) {
        assert s[|pre|].1.includes[j] in Names(s[..|pre|]);
      }
    }
  }

  /** Adding one well-resolved definition under a fresh name keeps the whole map well resolved. */
  lemma WellResolvedSnoc(pre: seq<(string, RawModelDef)>, m: map<string, ModelDef>, x: (string, RawModelDef))
    requires WellResolved(pre, m) && x.0 !in m
    requires forall j :: 0 <= j < |x.1.includes| ==> x.1.includes[j] in m
    ensures WellResolved(pre + [x], m[x.0 := ModelDef(x.1.cubes + IncludedCubes(m, x.1.includes), x.1.uvs + IncludedUvs(m, x.1.includes))])
  {
    var m' := m[x.0 := ModelDef(x.1.cubes + IncludedCubes(m, x.1.includes), x.1.uvs + IncludedUvs(m, x.1.includes))];
    var s := pre + [x];
    NamesSnoc(pre, x);
    forall i | 0 <= i < |s|
      ensures (forall j :: 0 <= j < |s[i].1.includes| ==> s[i].1.includes[j] in m')
      ensures m'[s[i].0] == ModelDef(s[i].1.cubes + IncludedCubes(m', s[i].1.includes), s[i].1.uvs + IncludedUvs(m', s[i].1.includes))
    {
      if i < |pre| {
        assert s[i] == pre[i];
        assert pre[i].0 in m;
      }
      IncludedUnchanged(m, m', s[i].1.includes);
    }
  }

  /** What the build of the first k definitions promises. */
  predicate PrefixBuilt(raw: seq<(string, RawModelDef)>, k: nat)
    requires k <= |raw|
  {
    var r := BuildPrefix(raw, k);
    (r.Ok? <==> IncludesResolvable(raw[..k])) && (r.Ok? ==> WellResolved(raw[..k], r.value))
  }

  /** One more definition: the build of the first k follows from that of the first k - 1. */
  lemma BuildPrefixStep(raw: seq<(string, RawModelDef)>, k: nat)
    requires 0 < k <= |raw| && DistinctNames(raw)
    requires PrefixBuilt(raw, k - 1)
    ensures PrefixBuilt(raw, k)
  {
    var pre := raw[..k - 1];
    var x := raw[k - 1];
    assert raw[..k] == pre + [x];
    ResolvableSnoc(pre, x);
    var r0 := BuildPrefix(raw, k - 1);
    if r0.Ok? {
      BuildStepOk(raw, k, r0.value);
    }
  }

  /** The step after a successful build of the first k - 1 definitions. */
  lemma BuildStepOk(raw: seq<(string, RawModelDef)>, k: nat, m: map<string, ModelDef>)
    requires 0 < k <= |raw| && DistinctNames(raw)
    requires BuildPrefix(raw, k - 1) == Ok(m) && WellResolved(raw[..k - 1], m)
    ensures var x := raw[k - 1];
      if forall j :: 0 <= j < |x.1.includes| ==> x.1.includes[j] in m then
        var d := ModelDef(x.1.cubes + IncludedCubes(m, x.1.includes), x.1.uvs + IncludedUvs(m, x.1.includes));
        BuildPrefix(raw, k) == Ok(m[x.0 := d]) && WellResolved(raw[..k - 1] + [x], m[x.0 := d])
      else BuildPrefix(raw, k).Err?
  {
    var pre := raw[..k - 1];
    var x := raw[k - 1];
    var r := ResolveIncludes(m, x.0, x.1.includes, ModelDef(x.1.cubes, x.1.uvs));
    assert BuildPrefix(raw, k) == if r.Ok? then Ok(m[x.0 := r.value]) else Err(r.error);
    if r.Ok? {
      assert x.0 !in m by {
        forall i | 0 <= i < k - 1 ensures pre[i].0 != x.0 {
          assert pre[i] == raw[i];
        }
      }
      WellResolvedSnoc(pre, m, x);
    }
  }

  /** Includes are resolved only against earlier definitions: the build succeeds exactly when they all are. */
  lemma {:induction false} BuildPrefixSpec(raw: seq<(string, RawModelDef)>, k: nat)
    requires k <= |raw| && DistinctNames(raw)
    ensures var r := BuildPrefix(raw, k);
      (r.Ok? <==> IncludesResolvable(raw[..k])) && (r.Ok? ==> WellResolved(raw[..k], r.value))
  {
    if k > 0 {
      BuildPrefixSpec(raw, k - 1);
      BuildPrefixStep(raw, k);
    }
  }

  /** The whole file: success iff every include points backwards, and then every model is well resolved. */
  lemma BuildModelDefsSpec(raw: seq<(string, RawModelDef)>)
    requires DistinctNames(raw)
    ensures BuildModelDefs(raw).Ok? <==> IncludesResolvable(raw)
    ensures BuildModelDefs(raw).Ok? ==> WellResolved(raw, BuildModelDefs(raw).value)
  {
    BuildPrefixSpec(raw, |raw|);
    assert raw[..|raw|] == raw;
  }

  predicate UvsMatchCubes(d: ModelDef) {
    |d.cubes| == |d.uvs|
  }

  lemma IncludedCountsMatch(m: map<string, ModelDef>, incs: seq<string>)
    requires forall k :: 0 <= k < |incs| ==> incs[k] in m
    requires forall n :: n in m ==> UvsMatchCubes(m[n])
    ensures |IncludedCubes(m, incs)| == |IncludedUvs(m, incs)|
  {
    if |incs| > 0 {
      IncludedCountsMatch(m, incs[1..]);
    }
  }

  /**
   * The mesher zips cubes with uvs; if every raw definition pairs them one to
   * one, every resolved definition does too.
   */
  lemma {:induction false} BuildKeepsCountsEqual(raw: seq<(string, RawModelDef)>, k: nat)
    requires k <= |raw|
    requires forall i :: 0 <= i < |raw| ==> |raw[i].1.cubes| == |raw[i].1.uvs|
    ensures BuildPrefix(raw, k).Ok? ==> forall n :: n in BuildPrefix(raw, k).value ==> UvsMatchCubes(BuildPrefix(raw, k).value[n])
  {
    if k > 0 {
      BuildKeepsCountsEqual(raw, k - 1);
      match BuildPrefix(raw, k - 1)
      case Err(_) =>
      case Ok(m) =>
        var (name, def) := raw[k - 1];
        match ResolveIncludes(m, name, def.includes, ModelDef(def.cubes, def.uvs))
        case Err(_) =>
        case Ok(_) =>
          IncludedCountsMatch(m, def.includes);
    }
  }

  // ---------------------------------------------------------------------------
  // The resource manager
  // ---------------------------------------------------------------------------

  /** The concrete resource types; `downcast_ref` succeeds only on the matching variant. */
  datatype ResourceKind = TranslationsKind | ModelDefsKind | TextureKind | ShaderKind

  datatype Resource =
    | TranslationsRes(entries: map<Key, string>)
    | ModelDefsRes(defs: map<string, ModelDef>)
    | TextureRes(textureId: nat)
    | ShaderRes(programId: nat)
  {
    function Kind(): ResourceKind {
      match this
      case TranslationsRes(_) => TranslationsKind
      case ModelDefsRes(_) => ModelDefsKind
      case TextureRes(_) => TextureKind
      case ShaderRes(_) => ShaderKind
    }
  }

  datatype ResourceManager = ResourceManager(resources: map<string, Resource>)

  /** `add` inserts under the name, replacing whatever was there. */
  function Add(rm: ResourceManager, name: string, res: Resource): (r: ResourceManager)
    ensures name in r.resources && r.resources[name] == res
    ensures forall n :: n != name ==> (n in r.resources <==> n in rm.resources)
    ensures forall n :: n != name && n in rm.resources ==> r.resources[n] == rm.resources[n]
  {
    ResourceManager(rm.resources[name := res])
  }

  /** `get::<R>`: the resource under the name, when there is one and it has the requested type. */
  function Get(rm: ResourceManager, name: string, kind: ResourceKind): (r: Option<Resource>)
    ensures r.Some? ==> r.value.Kind() == kind && name in rm.resources && rm.resources[name] == r.value
  {
    if name in rm.resources && rm.resources[name].Kind() == kind then Some(rm.resources[name]) else None
  }

  /** Reading back what was added: found under its own type, absent under any other. */
  lemma GetAfterAdd(rm: ResourceManager, name: string, res: Resource, kind: ResourceKind, other: string)
    requires other != name
    ensures Get(Add(rm, name, res), name, kind) == (if kind == res.Kind() then Some(res) else None)
    ensures Get(Add(rm, name, res), other, kind) == Get(rm, other, kind)
  {
  }

  /** An absent name is None whatever the type. */
  lemma GetAbsent(rm: ResourceManager, name: string, kind: ResourceKind)
    requires name !in rm.resources
    ensures Get(rm, name, kind) == None
  {
  }
}

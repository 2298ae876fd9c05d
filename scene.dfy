/**
 * Scene assembly (Include/scene.h). The root element's children are dispatched
 * to the object and material parsers, which append to two growing lists. An
 * object's material is looked up by id among the materials appended so far,
 * which is why materials have to be declared before the objects using them.
 */
module SceneAssembly {
  import opened Wrappers
  import opened Text
  import opened Tools

  /** A float as the term that produced it; `std::stof` itself is not modelled. */
  datatype Scalar = Num(r: real) | Stof(text: string)

  /** A `Vec3` as the term that produced it; `parseVec3` and `eulerToRad` are not modelled. */
  datatype Vec =
    | Unset                                   // a default-constructed Vec3
    | Triple(x: Scalar, y: Scalar, z: Scalar) // Vec3(x, y, z)
    | ParseVec3(text: string)
    | EulerToRad(angles: Vec)

  datatype Material = Material(id: string, color: Vec, intensity: Scalar, diffuse: Scalar)

  /** What `getMaterial` hands out for an id it cannot find. */
  const Missing := Material("MISSING", Triple(Num(0.0), Num(0.0), Num(0.0)), Num(0.0), Num(0.0))

  datatype Object =
    | Sphere(position: Vec, radius: Scalar, material: Material)
    | Plane(position: Vec, rotation: Vec, scale: Vec, material: Material)

  /** The messages the parser reports on the error stream before it carries on. */
  datatype Diagnostic =
    | Malformed(error: XmlError)
    | RootNotScene
    | UnknownTag(name: string)
    | UnknownObjectType(name: string)
    | UnknownMaterialTag(name: string)
    | MaterialNotFound(id: string)
    | NoCameraOrObjects

  /**
   * What a scene holds: its objects, its materials, the parameter maps handed
   * to `ParseCamera` and the messages reported so far.
   */
  datatype State = State(objects: seq<Object>, materials: seq<Material>,
                         cameras: seq<map<string, string>>, log: seq<Diagnostic>)

  // ---------------------------------------------------------------------------
  // Material lookup
  // ---------------------------------------------------------------------------

  /** The index of the first material with id `id`, if any. */
  function FirstWithId(materials: seq<Material>, id: string): (r: Option<nat>)
    ensures r.Some? ==> r.value < |materials| && materials[r.value].id == id
    ensures r.Some? ==> forall j | 0 <= j < r.value :: materials[j].id != id
    ensures r.None? ==> forall j | 0 <= j < |materials| :: materials[j].id != id
    decreases |materials|
  {
    if materials == [] then None
    else if materials[0].id == id then Some(0)
    else
      match FirstWithId(materials[1..], id)
      case None => None
      case Some(i) => Some(i + 1)
  }

  /** The material `getMaterial` returns: the first with the id, or `Missing`. */
  function Resolve(materials: seq<Material>, id: string): Material
  {
    match FirstWithId(materials, id)
    case Some(i) => materials[i]
    case None => Missing
  }

  /** The message `getMaterial` reports: one when the id is not found. */
  function NotFound(materials: seq<Material>, id: string): seq<Diagnostic>
  {
    if FirstWithId(materials, id).None? then [MaterialNotFound(id)] else []
  }

  /** The first material carrying the id is the one resolved. */
  lemma ResolveFirst(materials: seq<Material>, id: string, i: nat)
    requires i < |materials| && materials[i].id == id
    requires forall j | 0 <= j < i :: materials[j].id != id
    ensures Resolve(materials, id) == materials[i] && NotFound(materials, id) == []
  {
  }

  /** An id carried by no material resolves to `Missing` and is reported. */
  lemma ResolveNone(materials: seq<Material>, id: string)
    requires forall j | 0 <= j < |materials| :: materials[j].id != id
    ensures Resolve(materials, id) == Missing && NotFound(materials, id) == [MaterialNotFound(id)]
  {
  }

  // ---------------------------------------------------------------------------
  // Parameters, read in ascending key order
  // ---------------------------------------------------------------------------

  function PositionOf(params: map<string, string>): Vec
  {
    if "position" in params then ParseVec3(params["position"]) else Unset
  }

  /** A sphere's radius: 1 unless given. */
  function RadiusOf(params: map<string, string>): Scalar
  {
    if "radius" in params then Stof(params["radius"]) else Num(1.0)
  }

  function MaterialIdOf(params: map<string, string>): string
  {
    if "material" in params then params["material"] else ""
  }

  function RotationOf(params: map<string, string>): Vec
  {
    if "rotation" in params then EulerToRad(ParseVec3(params["rotation"])) else Unset
  }

  /** The same float in all three components, as `size` writes it. */
  function Uniform(text: string): Vec
  {
    Triple(Stof(text), Stof(text), Stof(text))
  }

  /**
   * A plane's scale. "size" sorts after "scale", so when both are given the
   * later assignment, from "size", is the one that stays.
   */
  function ScaleOf(params: map<string, string>): Vec
  {
    if "size" in params then Uniform(params["size"])
    else if "scale" in params then ParseVec3(params["scale"])
    else Unset
  }

  /** A material from its parameters: id "", colour unset, reflection and roughness 0 by default. */
  function MaterialOf(params: map<string, string>): Material
  {
    Material(if "id" in params then params["id"] else "",
             if "color" in params then ParseVec3(params["color"]) else Unset,
             if "reflection" in params then Stof(params["reflection"]) else Num(0.0),
             if "roughness" in params then Stof(params["roughness"]) else Num(0.0))
  }

  /**
   * The per-kind defaults: a sphere without "radius" has radius 1, a plane's
   * "size" puts one value in all three scale components, and a material
   * without parameters has id "", reflection 0 and roughness 0.
   */
  lemma Defaults(materials: seq<Material>, params: map<string, string>)
    ensures "radius" !in params ==> SphereOf(materials, params).radius == Num(1.0)
    ensures "radius" in params ==> SphereOf(materials, params).radius == Stof(params["radius"])
    ensures "size" in params ==> var s := PlaneOf(materials, params).scale; s.Triple? && s.x == s.y == s.z == Stof(params["size"])
    ensures MaterialOf(map[]) == Material("", Unset, Num(0.0), Num(0.0))
  {
  }

  /** The parameter loop of `CreateSphere`, visiting the keys as a `std::map` does. */
  method ReadSphere(params: map<string, string>) returns (position: Vec, radius: Scalar, materialId: string)
    ensures position == PositionOf(params) && radius == RadiusOf(params) && materialId == MaterialIdOf(params)
  {
    position, radius, materialId := Unset, Num(1.0), "";
    var remaining := params.Keys;
    while remaining != {}
      invariant remaining <= params.Keys
      invariant position == if "position" in params && "position" !in remaining then ParseVec3(params["position"]) else Unset
      invariant radius == if "radius" in params && "radius" !in remaining then Stof(params["radius"]) else Num(1.0)
      invariant materialId == if "material" in params && "material" !in remaining then params["material"] else ""
      decreases |remaining|
    {
      LeastExists(remaining);
      var key :| IsLeast(key, remaining);
      var value := params[key];
      if key == "position" {
        position := ParseVec3(value);
      } else if key == "radius" {
        radius := Stof(value);
      } else if key == "material" {
        materialId := value;
      }
      remaining := remaining - {key};
    }
  }

  /** "scale" sorts before "size". */
  lemma ScaleBeforeSize()
    ensures Below("scale", "size") && !Below("size", "scale")
  {
    assert "scale"[1..] == "cale" && "size"[1..] == "ize";
    BelowAsymmetric("scale", "size");
  }

  /**
   * The parameter loop of `CreatePlane`. Keys are visited in ascending order,
   * so a "size" overrides a "scale" whatever the order they were written in.
   */
  method ReadPlane(params: map<string, string>) returns (position: Vec, rotation: Vec, scale: Vec, materialId: string)
    ensures position == PositionOf(params) && rotation == RotationOf(params)
    ensures scale == ScaleOf(params) && materialId == MaterialIdOf(params)
  {
    position, rotation, scale, materialId := Unset, Unset, Unset, "";
    var remaining := params.Keys;
    ghost var seen: map<string, string> := map[];
    while remaining != {}
      invariant remaining <= params.Keys && seen.Keys == params.Keys - remaining
      invariant forall k | k in seen :: seen[k] == params[k]
      invariant "size" in seen ==> "scale" !in remaining
      invariant position == PositionOf(seen) && rotation == RotationOf(seen)
      invariant scale == ScaleOf(seen) && materialId == MaterialIdOf(seen)
      decreases |remaining|
    {
      LeastExists(remaining);
      var key :| IsLeast(key, remaining);
      if key == "size" {
        // "scale" sorts before "size", so it was read already
        ScaleBeforeSize();
      }
      position, rotation, scale, materialId := PlaneKey(key, params[key], position, rotation, scale, materialId);
      remaining := remaining - {key};
      seen := seen[key := params[key]];
    }
    assert seen == params;
  }

  /** One turn of the parameter loop of `CreatePlane`. */
  method PlaneKey(key: string, value: string, position: Vec, rotation: Vec, scale: Vec, materialId: string)
    returns (position': Vec, rotation': Vec, scale': Vec, materialId': string)
    ensures position' == if key == "position" then ParseVec3(value) else position
    ensures rotation' == if key == "rotation" then EulerToRad(ParseVec3(value)) else rotation
    ensures scale' == if key == "scale" then ParseVec3(value) else if key == "size" then Uniform(value) else scale
    ensures materialId' == if key == "material" then value else materialId
  {
    position', rotation', scale', materialId' := position, rotation, scale, materialId;
    if key == "position" {
      position' := ParseVec3(value);
    } else if key == "rotation" {
      rotation' := EulerToRad(ParseVec3(value));
    } else if key == "scale" {
      scale' := ParseVec3(value);
    } else if key == "size" {
      scale' := Uniform(value);
    } else if key == "material" {
      materialId' := value;
    }
  }

  /** The parameter loop of `ParseMaterials` for one material. */
  method ReadMaterial(params: map<string, string>) returns (m: Material)
    ensures m == MaterialOf(params)
  {
    var id, color, reflectiveness, roughness := "", Unset, Num(0.0), Num(0.0);
    var remaining := params.Keys;
    while remaining != {}
      invariant remaining <= params.Keys
      invariant id == if "id" in params && "id" !in remaining then params["id"] else ""
      invariant color == if "color" in params && "color" !in remaining then ParseVec3(params["color"]) else Unset
      invariant reflectiveness == if "reflection" in params && "reflection" !in remaining then Stof(params["reflection"]) else Num(0.0)
      invariant roughness == if "roughness" in params && "roughness" !in remaining then Stof(params["roughness"]) else Num(0.0)
      decreases |remaining|
    {
      LeastExists(remaining);
      var key :| IsLeast(key, remaining);
      var value := params[key];
      if key == "id" {
        id := value;
      } else if key == "color" {
        color := ParseVec3(value);
      } else if key == "reflection" {
        reflectiveness := Stof(value);
      } else if key == "roughness" {
        roughness := Stof(value);
      }
      remaining := remaining - {key};
    }
    m := Material(id, color, reflectiveness, roughness);
  }

  // ---------------------------------------------------------------------------
  // The parser as a function of the state
  // ---------------------------------------------------------------------------

  /** The sphere `CreateSphere` builds, its material resolved among `materials`. */
  function SphereOf(materials: seq<Material>, params: map<string, string>): Object
  {
    Sphere(PositionOf(params), RadiusOf(params), Resolve(materials, MaterialIdOf(params)))
  }

  /** The plane `CreatePlane` builds. */
  function PlaneOf(materials: seq<Material>, params: map<string, string>): Object
  {
    Plane(PositionOf(params), RotationOf(params), ScaleOf(params), Resolve(materials, MaterialIdOf(params)))
  }

  /** `CreateSphere`: the sphere is appended, and a missing material reported. */
  function AddSphere(st: State, params: map<string, string>): State
  {
    st.(objects := st.objects + [SphereOf(st.materials, params)],
        log := st.log + NotFound(st.materials, MaterialIdOf(params)))
  }

  /** `CreatePlane`: likewise for a plane. */
  function AddPlane(st: State, params: map<string, string>): State
  {
    st.(objects := st.objects + [PlaneOf(st.materials, params)],
        log := st.log + NotFound(st.materials, MaterialIdOf(params)))
  }

  /** One turn of `ParseObjects`. */
  function ObjectStep(st: State, parsed: Parsed): State
  {
    match parsed
    case Err(e) => st.(log := st.log + [Malformed(e)])
    case Ok(node) =>
      if node.tagName == "Sphere" then AddSphere(st, node.parameters)
      else if node.tagName == "Plane" then AddPlane(st, node.parameters)
      else st.(log := st.log + [UnknownObjectType(node.tagName)])
  }

  /** `ParseObjects` over the parsed children, in order. */
  function ObjectsFold(st: State, children: seq<Parsed>): State
    decreases |children|
  {
    if children == [] then st
    else ObjectStep(ObjectsFold(st, children[..|children| - 1]), children[|children| - 1])
  }

  /** One turn of `ParseMaterials`: a material is appended whatever the tag's name. */
  function MaterialStep(st: State, parsed: Parsed): State
  {
    match parsed
    case Err(e) => st.(log := st.log + [Malformed(e)])
    case Ok(node) =>
      var reported := if node.tagName != "material" then [UnknownMaterialTag(node.tagName)] else [];
      st.(materials := st.materials + [MaterialOf(node.parameters)], log := st.log + reported)
  }

  /** `ParseMaterials` over the parsed children, in order. */
  function MaterialsFold(st: State, children: seq<Parsed>): State
    decreases |children|
  {
    if children == [] then st
    else MaterialStep(MaterialsFold(st, children[..|children| - 1]), children[|children| - 1])
  }

  /** One child of the root, dispatched on its tag. */
  function RootStep(st: State, parsed: Parsed): State
  {
    match parsed
    case Err(e) => st.(log := st.log + [Malformed(e)])
    case Ok(node) =>
      if node.tagName == "objects" then ObjectsFold(st, ParseAll(node.children))
      else if node.tagName == "camera" then st.(cameras := st.cameras + [node.parameters])
      else if node.tagName == "materials" then MaterialsFold(st, ParseAll(node.children))
      else st.(log := st.log + [UnknownTag(node.tagName)])
  }

  /** The root's children, in order. */
  function RootFold(st: State, children: seq<Parsed>): State
    decreases |children|
  {
    if children == [] then st
    else RootStep(RootFold(st, children[..|children| - 1]), children[|children| - 1])
  }

  /** The name of a parsed element. */
  function TagOf(parsed: Parsed): Option<string>
  {
    if parsed.Ok? then Some(parsed.value.tagName) else None
  }

  /** Some child is an element named `tag`. */
  predicate Defines(children: seq<Parsed>, tag: string)
  {
    exists i | 0 <= i < |children| :: TagOf(children[i]) == Some(tag)
  }

  /** One more child defines `tag` when the earlier ones did or it does. */
  lemma DefinesNext(children: seq<Parsed>, i: nat, tag: string)
    requires i < |children|
    ensures Defines(children[..i + 1], tag) <==> Defines(children[..i], tag) || TagOf(children[i]) == Some(tag)
  {
    var longer := children[..i + 1];
    assert forall j | 0 <= j < i :: longer[j] == children[..i][j];
    assert longer[i] == children[i];
  }

  /** What `parseFromFile` does with a root element that parsed. */
  function Assemble(st: State, root: XmlNode): State
  {
    var named := if root.tagName != "scene" then st.(log := st.log + [RootNotScene]) else st;
    var children := ParseAll(root.children);
    var done := RootFold(named, children);
    if Defines(children, "camera") && Defines(children, "objects") then done
    else done.(log := done.log + [NoCameraOrObjects])
  }

  /** `parseFromFile` given the file's content, starting from `st`. */
  function Parse(st: State, content: string): State
  {
    match ParseBracket(StripFrom(content, 0))
    case Err(e) => st.(log := st.log + [Malformed(e)])
    case Ok(root) => Assemble(st, root)
  }

  const Empty := State([], [], [], [])

  // ---------------------------------------------------------------------------
  // Properties of the parser
  // ---------------------------------------------------------------------------

  /** The values of the `Some`s of `opts`, in order. */
  function Somes<T>(opts: seq<Option<T>>): seq<T>
    decreases |opts|
  {
    if opts == [] then []
    else
      var last := opts[|opts| - 1];
      Somes(opts[..|opts| - 1]) + (if last.Some? then [last.value] else [])
  }

  /** With no `None` among them, the values keep their positions. */
  lemma {:induction false} SomesAll<T>(opts: seq<Option<T>>)
    requires forall i | 0 <= i < |opts| :: opts[i].Some?
    ensures |Somes(opts)| == |opts|
    ensures forall i | 0 <= i < |opts| :: Somes(opts)[i] == opts[i].value
    decreases |opts|
  {
    if opts != [] {
      SomesAll(opts[..|opts| - 1]);
    }
  }

  /** A value among the `Some`s comes from one of them. */
  lemma {:induction false} SomesFrom<T>(opts: seq<Option<T>>, x: T)
    requires x in Somes(opts)
    ensures Some(x) in opts
    decreases |opts|
  {
    var prefix := opts[..|opts| - 1];
    if x in Somes(prefix) {
      SomesFrom(prefix, x);
    }
  }

  /** The object a child of an objects block stands for: none unless it is a Sphere or a Plane. */
  function ObjectFor(materials: seq<Material>, parsed: Parsed): Option<Object>
  {
    match parsed
    case Err(_) => None
    case Ok(node) =>
      if node.tagName == "Sphere" then Some(SphereOf(materials, node.parameters))
      else if node.tagName == "Plane" then Some(PlaneOf(materials, node.parameters))
      else None
  }

  /** The object each child stands for, in order. */
  function ObjectsFor(materials: seq<Material>, children: seq<Parsed>): (r: seq<Option<Object>>)
    ensures |r| == |children|
  {
    seq(|children|, i requires 0 <= i < |children| => ObjectFor(materials, children[i]))
  }

  /** The objects built from the children against a fixed list of materials, in order. */
  function Built(materials: seq<Material>, children: seq<Parsed>): seq<Object>
  {
    Somes(ObjectsFor(materials, children))
  }

  /**
   * `ParseObjects` appends the objects built from its children and nothing
   * else; the materials it resolves against are the ones present when it starts.
   */
  lemma {:induction false} ObjectsFoldShape(st: State, children: seq<Parsed>)
    ensures var r := ObjectsFold(st, children);
      r.objects == st.objects + Built(st.materials, children) &&
      r.materials == st.materials && r.cameras == st.cameras && st.log <= r.log
    decreases |children|
  {
    if children != [] {
      var prefix := children[..|children| - 1];
      ObjectsFoldShape(st, prefix);
      var opts := ObjectsFor(st.materials, children);
      assert opts[..|opts| - 1] == ObjectsFor(st.materials, prefix);
    }
  }

  /** Each Sphere or Plane child yields exactly one object, in the order of the children. */
  lemma OneObjectPerShape(materials: seq<Material>, children: seq<Parsed>)
    requires forall i | 0 <= i < |children| :: ObjectFor(materials, children[i]).Some?
    ensures |Built(materials, children)| == |children|
    ensures forall i | 0 <= i < |children| :: Built(materials, children)[i] == ObjectFor(materials, children[i]).value
  {
    SomesAll(ObjectsFor(materials, children));
  }

  /** Every object built against `materials` carries one of them, or `Missing`. */
  lemma BuiltResolvesAgainst(materials: seq<Material>, children: seq<Parsed>)
    ensures forall o | o in Built(materials, children) :: o.material == Missing || o.material in materials
  {
    forall o | o in Built(materials, children)
      ensures o.material == Missing || o.material in materials
    {
      var opts := ObjectsFor(materials, children);
      SomesFrom(opts, o);
      var i :| 0 <= i < |opts| && opts[i] == Some(o);
      assert o.material == Resolve(materials, MaterialIdOf(children[i].value.parameters));
    }
  }

  /** The material each child stands for: one whenever it parses, whatever its tag. */
  function MaterialsFor(children: seq<Parsed>): (r: seq<Option<Material>>)
    ensures |r| == |children|
  {
    seq(|children|, i requires 0 <= i < |children| =>
      if children[i].Ok? then Some(MaterialOf(children[i].value.parameters)) else None)
  }

  /** The materials parsed from the children, in order. */
  function MaterialsBuilt(children: seq<Parsed>): seq<Material>
  {
    Somes(MaterialsFor(children))
  }

  /** `ParseMaterials` appends the materials of its children and leaves the objects alone. */
  lemma {:induction false} MaterialsFoldShape(st: State, children: seq<Parsed>)
    ensures var r := MaterialsFold(st, children);
      r.materials == st.materials + MaterialsBuilt(children) &&
      r.objects == st.objects && r.cameras == st.cameras && st.log <= r.log
    decreases |children|
  {
    if children != [] {
      var prefix := children[..|children| - 1];
      MaterialsFoldShape(st, prefix);
      var opts := MaterialsFor(children);
      assert opts[..|opts| - 1] == MaterialsFor(prefix);
    }
  }

  /** One material per child, in order, even when the tag is not "material". */
  lemma OneMaterialPerChild(children: seq<Parsed>)
    requires forall i | 0 <= i < |children| :: children[i].Ok?
    ensures |MaterialsBuilt(children)| == |children|
    ensures forall i | 0 <= i < |children| :: MaterialsBuilt(children)[i] == MaterialOf(children[i].value.parameters)
  {
    SomesAll(MaterialsFor(children));
  }

  /** A root child only ever appends to the objects and to the materials. */
  lemma RootStepGrows(st: State, parsed: Parsed)
    ensures var r := RootStep(st, parsed);
      st.objects <= r.objects && st.materials <= r.materials
  {
    if parsed.Ok? {
      var children := ParseAll(parsed.value.children);
      ObjectsFoldShape(st, children);
      MaterialsFoldShape(st, children);
    }
  }

  /** Later root children keep what earlier ones produced. */
  lemma {:induction false} RootFoldGrows(st: State, children: seq<Parsed>, k: nat)
    requires k <= |children|
    ensures var before := RootFold(st, children[..k]);
      var after := RootFold(st, children);
      before.objects <= after.objects && before.materials <= after.materials
    decreases |children|
  {
    if k < |children| {
      var prefix := children[..|children| - 1];
      assert prefix[..k] == children[..k];
      RootFoldGrows(st, prefix, k);
      RootStepGrows(RootFold(st, prefix), children[|children| - 1]);
    } else {
      assert children[..k] == children;
    }
  }

  /**
   * The objects an objects block adds resolve only against the materials
   * declared by the root children before it: a material declared later cannot
   * be found by them.
   */
  lemma ObjectsSeeEarlierMaterials(st: State, children: seq<Parsed>, k: nat)
    requires k < |children| && TagOf(children[k]) == Some("objects")
    ensures var before := RootFold(st, children[..k]);
      var after := RootFold(st, children[..k + 1]);
      before.objects <= after.objects && after.materials == before.materials &&
      forall o | o in after.objects[|before.objects|..] :: o.material == Missing || o.material in before.materials
  {
    var prefix := children[..k + 1];
    assert prefix[..k] == children[..k] && prefix[k] == children[k];
    var before := RootFold(st, children[..k]);
    var block := ParseAll(children[k].value.children);
    ObjectsFoldShape(before, block);
    BuiltResolvesAgainst(before.materials, block);
    var after := RootFold(st, prefix);
    assert after.objects[|before.objects|..] == Built(before.materials, block);
  }

  /** An unknown root tag is only reported. */
  lemma UnknownTagReported(st: State, parsed: Parsed, name: string)
    requires TagOf(parsed) == Some(name) && name != "objects" && name != "camera" && name != "materials"
    ensures RootStep(st, parsed) == st.(log := st.log + [UnknownTag(name)])
  {
  }

  /**
   * A scene without a camera or without an objects block is reported once at
   * the end; what the children produced is kept.
   */
  lemma MissingBlockReported(st: State, content: string, root: XmlNode)
    requires ParseBracket(StripFrom(content, 0)) == Ok(root)
    requires var children := ParseAll(root.children);
      (forall i | 0 <= i < |children| :: TagOf(children[i]) != Some("camera")) ||
      (forall i | 0 <= i < |children| :: TagOf(children[i]) != Some("objects"))
    ensures var named := if root.tagName != "scene" then st.(log := st.log + [RootNotScene]) else st;
      var done := RootFold(named, ParseAll(root.children));
      Parse(st, content) == done.(log := done.log + [NoCameraOrObjects])
  {
  }

  // ---------------------------------------------------------------------------
  // The Scene class
  // ---------------------------------------------------------------------------

  class Scene {
    var objects: seq<Object>
    var materials: seq<Material>
    var cameras: seq<map<string, string>>
    var log: seq<Diagnostic>

    function Snapshot(): State
      reads this
    {
      State(objects, materials, cameras, log)
    }

    /** `Scene()`: nothing parsed yet. */
    constructor Blank()
      ensures Snapshot() == Empty
    {
      objects, materials, cameras, log := [], [], [], [];
    }

    /** `Scene(path, rs)`, given the content of the file at `path`. */
    constructor FromContent(content: string)
      ensures Snapshot() == Parse(Empty, content)
    {
      objects, materials, cameras, log := [], [], [], [];
      new;
      ParseFromContent(content);
    }

    /** `parseFromFile`, given the file's content. */
    method ParseFromContent(content: string)
      modifies this
      ensures Snapshot() == Parse(old(Snapshot()), content)
    {
      var text := RemoveComments(content);
      var root := ParseXmlBracket(text);
      if root.Err? {
        log := log + [Malformed(root.error)];
      } else {
        AssembleRoot(root.value);
      }
    }

    /** The part of `parseFromFile` after the root element is parsed. */
    method AssembleRoot(root: XmlNode)
      modifies this
      ensures Snapshot() == Assemble(old(Snapshot()), root)
    {
      if root.tagName != "scene" {
        log := log + [RootNotScene];
      }
      var texts := root.children;
      ghost var children := ParseAll(texts);
      var definedObjects, definedCamera := false, false;
      ghost var start := Snapshot();
      for i := 0 to |texts|
        invariant Snapshot() == RootFold(start, children[..i])
        invariant definedObjects == Defines(children[..i], "objects")
        invariant definedCamera == Defines(children[..i], "camera")
      {
        assert children[..i + 1][..i] == children[..i];
        var tag := DispatchChild(texts[i]);
        DefinesNext(children, i, "objects");
        DefinesNext(children, i, "camera");
        definedObjects := definedObjects || tag == Some("objects");
        definedCamera := definedCamera || tag == Some("camera");
      }
      assert children[..|texts|] == children;
      if !definedCamera || !definedObjects {
        log := log + [NoCameraOrObjects];
      }
    }

    /** The body of the loop over the root's children; `tag` is the child's tag. */
    method DispatchChild(text: string) returns (tag: Option<string>)
      modifies this
      ensures Snapshot() == RootStep(old(Snapshot()), ParseBracket(text)) && tag == TagOf(ParseBracket(text))
    {
      var node := ParseXmlBracket(text);
      if node.Err? {
        log := log + [Malformed(node.error)];
        return None;
      }
      tag := Some(node.value.tagName);
      if node.value.tagName == "objects" {
        ParseObjects(node.value.children);
      } else if node.value.tagName == "camera" {
        ParseCamera(node.value.parameters);
      } else if node.value.tagName == "materials" {
        ParseMaterials(node.value.children);
      } else {
        log := log + [UnknownTag(node.value.tagName)];
      }
    }

    /** `ParseObjects`. */
    method ParseObjects(objectStrings: seq<string>)
      modifies this
      ensures Snapshot() == ObjectsFold(old(Snapshot()), ParseAll(objectStrings))
    {
      ghost var children := ParseAll(objectStrings);
      ghost var start := Snapshot();
      for i := 0 to |objectStrings|
        invariant Snapshot() == ObjectsFold(start, children[..i])
      {
        assert children[..i + 1][..i] == children[..i];
        var node := ParseXmlBracket(objectStrings[i]);
        if node.Err? {
          log := log + [Malformed(node.error)];
        } else if node.value.tagName == "Sphere" {
          CreateSphere(node.value.parameters);
        } else if node.value.tagName == "Plane" {
          CreatePlane(node.value.parameters);
        } else {
          log := log + [UnknownObjectType(node.value.tagName)];
        }
      }
      assert children[..|objectStrings|] == children;
    }

    /** `ParseCamera`, whose body is not part of this model: the call is recorded. */
    method ParseCamera(params: map<string, string>)
      modifies this
      ensures Snapshot() == old(Snapshot()).(cameras := old(cameras) + [params])
    {
      cameras := cameras + [params];
    }

    /** `ParseMaterials`. */
    method ParseMaterials(materialStrings: seq<string>)
      modifies this
      ensures Snapshot() == MaterialsFold(old(Snapshot()), ParseAll(materialStrings))
    {
      ghost var children := ParseAll(materialStrings);
      ghost var start := Snapshot();
      for i := 0 to |materialStrings|
        invariant Snapshot() == MaterialsFold(start, children[..i])
      {
        assert children[..i + 1][..i] == children[..i];
        var node := ParseXmlBracket(materialStrings[i]);
        if node.Err? {
          log := log + [Malformed(node.error)];
        } else {
          if node.value.tagName != "material" {
            log := log + [UnknownMaterialTag(node.value.tagName)];
          }
          var m := ReadMaterial(node.value.parameters);
          materials := materials + [m];
        }
      }
      assert children[..|materialStrings|] == children;
    }

    /** `CreateSphere`. */
    method CreateSphere(params: map<string, string>)
      modifies this
      ensures Snapshot() == AddSphere(old(Snapshot()), params)
    {
      var position, radius, materialId := ReadSphere(params);
      var material := GetMaterial(materialId);
      objects := objects + [Sphere(position, radius, material)];
    }

    /** `CreatePlane`. */
    method CreatePlane(params: map<string, string>)
      modifies this
      ensures Snapshot() == AddPlane(old(Snapshot()), params)
    {
      var position, rotation, scale, materialId := ReadPlane(params);
      var material := GetMaterial(materialId);
      objects := objects + [Plane(position, rotation, scale, material)];
    }

    /** `getMaterial`: a linear search over the materials appended so far. */
    method GetMaterial(id: string) returns (m: Material)
      modifies this
      ensures objects == old(objects) && materials == old(materials) && cameras == old(cameras)
      ensures m == Resolve(materials, id) && log == old(log) + NotFound(materials, id)
    {
      for i := 0 to |materials|
        invariant forall j | 0 <= j < i :: materials[j].id != id
      {
        if id == materials[i].id {
          ResolveFirst(materials, id, i);
          return materials[i];
        }
      }
      ResolveNone(materials, id);
      log := log + [MaterialNotFound(id)];
      m := Missing;
    }
  }
}

/** Merging template defaults, blueprint, resource and owner parameters. */
module Params {
  import opened Common

  type Value = string

  datatype TemplateParam = TemplateParam(name: string, default: Value)

  datatype BlueprintParam = BlueprintParam(name: string, value: Option<Value>, default: Option<Value>)

  datatype OwnerParam = OwnerParam(name: string, value: Value)

  /** The webhook admits exactly one of value and default; one is enough for the merge not to dereference nil. */
  predicate Usable(p: BlueprintParam) {
    p.value.Some? || p.default.Some?
  }

  function ParamValue(p: BlueprintParam): Value
    requires Usable(p)
  {
    if p.value.Some? then p.value.value else p.default.value
  }

  // ---------- the declarative reading ----------

  function LastDefault(ps: seq<TemplateParam>, key: string): (r: Option<Value>)
    ensures r.Some? <==> exists p :: p in ps && p.name == key
  {
    if ps == [] then None
    else if ps[|ps| - 1].name == key then Some(ps[|ps| - 1].default)
    else LastDefault(ps[..|ps| - 1], key)
  }

  function LastParam(ps: seq<BlueprintParam>, key: string): (r: Option<BlueprintParam>)
    ensures r.Some? <==> exists p :: p in ps && p.name == key
    ensures r.Some? ==> r.value in ps && r.value.name == key
  {
    if ps == [] then None
    else if ps[|ps| - 1].name == key then Some(ps[|ps| - 1])
    else LastParam(ps[..|ps| - 1], key)
  }

  function LastOwner(ps: seq<OwnerParam>, key: string): (r: Option<Value>)
    ensures r.Some? <==> exists p :: p in ps && p.name == key
  {
    if ps == [] then None
    else if ps[|ps| - 1].name == key then Some(ps[|ps| - 1].value)
    else LastOwner(ps[..|ps| - 1], key)
  }

  /** The parameter that governs a key below the owner: the resource's, or failing that the blueprint's. */
  function Governing(blueprint: seq<BlueprintParam>, resource: seq<BlueprintParam>,
                     key: string): (r: Option<BlueprintParam>)
    ensures r.Some? ==> r.value in blueprint || r.value in resource
  {
    var r := LastParam(resource, key);
    if r.Some? then r else LastParam(blueprint, key)
  }

  /**
   The last owner value, unless the governing parameter fixes a value; else the governing parameter;
   else the last template default.
   */
  function Chosen(template: seq<TemplateParam>, blueprint: seq<BlueprintParam>, resource: seq<BlueprintParam>,
                  owner: seq<OwnerParam>, key: string): Option<Value>
    requires forall p :: p in blueprint || p in resource ==> Usable(p)
  {
    var g := Governing(blueprint, resource, key);
    var o := LastOwner(owner, key);
    if o.Some? && !(g.Some? && g.value.value.Some?) then o
    else if g.Some? then Some(ParamValue(g.value))
    else LastDefault(template, key)
  }

  /** `i` is the last position of the key. */
  ghost predicate IsLast(names: seq<string>, key: string, i: int) {
    0 <= i < |names| && names[i] == key && forall j :: i < j < |names| ==> names[j] != key
  }

  lemma LastOrEarlier(names: seq<string>, key: string)
    requires names != []
    ensures forall i :: IsLast(names, key, i) ==>
              if names[|names| - 1] == key then i == |names| - 1 else IsLast(names[..|names| - 1], key, i)
  {
  }

  function TemplateNames(ps: seq<TemplateParam>): seq<string> {
    seq(|ps|, i requires 0 <= i < |ps| => ps[i].name)
  }

  function BlueprintNames(ps: seq<BlueprintParam>): seq<string> {
    seq(|ps|, i requires 0 <= i < |ps| => ps[i].name)
  }

  function OwnerNames(ps: seq<OwnerParam>): seq<string> {
    seq(|ps|, i requires 0 <= i < |ps| => ps[i].name)
  }

  lemma {:induction false} LastDefaultIs(ps: seq<TemplateParam>, key: string)
    ensures forall i :: IsLast(TemplateNames(ps), key, i) ==> LastDefault(ps, key) == Some(ps[i].default)
  {
    if ps != [] {
      var init := ps[..|ps| - 1];
      LastDefaultIs(init, key);
      LastOrEarlier(TemplateNames(ps), key);
      assert TemplateNames(ps)[..|ps| - 1] == TemplateNames(init);
    }
  }

  lemma {:induction false} LastParamIs(ps: seq<BlueprintParam>, key: string)
    ensures forall i :: IsLast(BlueprintNames(ps), key, i) ==> LastParam(ps, key) == Some(ps[i])
  {
    if ps != [] {
      var init := ps[..|ps| - 1];
      LastParamIs(init, key);
      LastOrEarlier(BlueprintNames(ps), key);
      assert BlueprintNames(ps)[..|ps| - 1] == BlueprintNames(init);
    }
  }

  lemma {:induction false} LastOwnerIs(ps: seq<OwnerParam>, key: string)
    ensures forall i :: IsLast(OwnerNames(ps), key, i) ==> LastOwner(ps, key) == Some(ps[i].value)
  {
    if ps != [] {
      var init := ps[..|ps| - 1];
      LastOwnerIs(init, key);
      LastOrEarlier(OwnerNames(ps), key);
      assert OwnerNames(ps)[..|ps| - 1] == OwnerNames(init);
    }
  }

  /**
   Who answers a key. The last parameter of the resource governs it, or without one the last of the blueprint. A value
   that it fixes prevails; else the owner's last value; else its default, or the template's last default.
   */
  lemma Precedence(template: seq<TemplateParam>, blueprint: seq<BlueprintParam>, resource: seq<BlueprintParam>,
                   owner: seq<OwnerParam>, key: string, g: Option<BlueprintParam>)
    requires forall p :: p in blueprint || p in resource ==> Usable(p)
    requires match g
             case Some(p) =>
               || (exists i :: IsLast(BlueprintNames(resource), key, i) && resource[i] == p)
               || (key !in BlueprintNames(resource)
                   && exists i :: IsLast(BlueprintNames(blueprint), key, i) && blueprint[i] == p)
             case None => key !in BlueprintNames(resource) && key !in BlueprintNames(blueprint)
    ensures var r := Chosen(template, blueprint, resource, owner, key);
            && (g.Some? && g.value.value.Some? ==> r == g.value.value)
            && (g.None? || g.value.value.None? ==>
                  && (forall i :: IsLast(OwnerNames(owner), key, i) ==> r == Some(owner[i].value))
                  && (key !in OwnerNames(owner) ==>
                        if g.Some? then r == g.value.default
                        else
                          && (forall i :: IsLast(TemplateNames(template), key, i) ==> r == Some(template[i].default))
                          && (key !in TemplateNames(template) ==> r == None)))
  {
    hide LastDefault, LastOwner, LastParam;
    LastParamIs(resource, key);
    LastParamIs(blueprint, key);
    LastOwnerIs(owner, key);
    LastDefaultIs(template, key);
    NotNamed(template, blueprint, resource, owner, key);
  }

  lemma NotNamed(template: seq<TemplateParam>, blueprint: seq<BlueprintParam>, resource: seq<BlueprintParam>,
                 owner: seq<OwnerParam>, key: string)
    ensures key !in TemplateNames(template) ==> LastDefault(template, key) == None
    ensures key !in BlueprintNames(blueprint) ==> LastParam(blueprint, key) == None
    ensures key !in BlueprintNames(resource) ==> LastParam(resource, key) == None
    ensures key !in OwnerNames(owner) ==> LastOwner(owner, key) == None
  {
    hide LastDefault, LastOwner, LastParam;
    assert forall i :: 0 <= i < |template| ==> TemplateNames(template)[i] == template[i].name;
    assert forall i :: 0 <= i < |blueprint| ==> BlueprintNames(blueprint)[i] == blueprint[i].name;
    assert forall i :: 0 <= i < |resource| ==> BlueprintNames(resource)[i] == resource[i].name;
    assert forall i :: 0 <= i < |owner| ==> OwnerNames(owner)[i] == owner[i].name;
  }

  // ---------- the loops ----------

  function Over(p: Option<BlueprintParam>, below: Option<Value>): Option<Value>
    requires p.Some? ==> Usable(p.value)
  {
    if p.Some? then Some(ParamValue(p.value)) else below
  }

  predicate OwnerCanOverride(isProtected: map<string, bool>, key: string) {
    key !in isProtected || !isProtected[key]
  }

  lemma NoParams()
    ensures forall key :: LastParam([], key) == None
  {
  }

  lemma LastParamStep(ps: seq<BlueprintParam>, i: nat)
    requires i < |ps|
    ensures forall key :: LastParam(ps[..i + 1], key)
                          == if ps[i].name == key then Some(ps[i]) else LastParam(ps[..i], key)
  {
    var longer := ps[..i + 1];
    assert longer[|longer| - 1] == ps[i] && longer[..|longer| - 1] == ps[..i];
    forall key ensures LastParam(longer, key) == if ps[i].name == key then Some(ps[i]) else LastParam(ps[..i], key) {
      assert LastParam(longer, key)
             == if longer[|longer| - 1].name == key then Some(longer[|longer| - 1])
                else LastParam(longer[..|longer| - 1], key);
    }
  }

  /** One blueprint-level layer: each parameter overwrites, and is protected if it fixes a value. */
  method Layer(params: map<string, Value>, isProtected: map<string, bool>, layer: seq<BlueprintParam>)
    returns (merged: map<string, Value>, nowProtected: map<string, bool>)
    requires forall p :: p in layer ==> Usable(p)
    ensures forall key :: Get(merged, key) == Over(LastParam(layer, key), Get(params, key))
    ensures forall key :: Get(nowProtected, key)
                          == if LastParam(layer, key).Some? then Some(LastParam(layer, key).value.value.Some?)
                             else Get(isProtected, key)
  {
    hide LastParam;
    NoParams();
    merged, nowProtected := params, isProtected;
    for i := 0 to |layer|
      invariant forall key :: Get(merged, key) == Over(LastParam(layer[..i], key), Get(params, key))
      invariant forall key :: Get(nowProtected, key)
                              == if LastParam(layer[..i], key).Some? then
                                   Some(LastParam(layer[..i], key).value.value.Some?)
                                 else Get(isProtected, key)
    {
      LastParamStep(layer, i);
      var p := layer[i];
      assert p in layer;
      if p.value.Some? {
        merged := merged[p.name := p.value.value];
        nowProtected := nowProtected[p.name := true];
      } else {
        merged := merged[p.name := p.default.value];
        nowProtected := nowProtected[p.name := false];
      }
    }
    assert layer[..|layer|] == layer;
  }

  /** The merged parameters answer every key with the chosen value, and no other key. */
  method Merge(template: seq<TemplateParam>, blueprint: seq<BlueprintParam>, resource: seq<BlueprintParam>,
               owner: seq<OwnerParam>)
    returns (params: map<string, Value>)
    requires forall p :: p in blueprint || p in resource ==> Usable(p)
    ensures forall key :: Get(params, key) == Chosen(template, blueprint, resource, owner, key)
  {
    params := map[];
    for i := 0 to |template|
      invariant forall key :: Get(params, key) == LastDefault(template[..i], key)
    {
      assert template[..i + 1][..i] == template[..i];
      params := params[template[i].name := template[i].default];
    }
    assert template[..|template|] == template;
    var isProtected: map<string, bool> := map[];
    params, isProtected := Layer(params, isProtected, blueprint);
    params, isProtected := Layer(params, isProtected, resource);
    ghost var below := params;
    for i := 0 to |owner|
      invariant forall key :: Get(params, key)
                              == if LastOwner(owner[..i], key).Some? && OwnerCanOverride(isProtected, key)
                                 then LastOwner(owner[..i], key) else Get(below, key)
    {
      assert owner[..i + 1][..i] == owner[..i];
      if OwnerCanOverride(isProtected, owner[i].name) {
        params := params[owner[i].name := owner[i].value];
      }
    }
    assert owner[..|owner|] == owner;
    forall key ensures Get(params, key) == Chosen(template, blueprint, resource, owner, key) {
      var governing := Governing(blueprint, resource, key);
      assert OwnerCanOverride(isProtected, key) <==> !(governing.Some? && governing.value.value.Some?) by {
        assert Get(isProtected, key) == if governing.Some? then Some(governing.value.value.Some?) else None;
      }
    }
  }

  /** The merge answers exactly the keys that occur in some layer. */
  lemma ChosenDomain(template: seq<TemplateParam>, blueprint: seq<BlueprintParam>, resource: seq<BlueprintParam>,
                     owner: seq<OwnerParam>, key: string)
    requires forall p :: p in blueprint || p in resource ==> Usable(p)
    ensures Chosen(template, blueprint, resource, owner, key).Some?
            <==> (|| (exists p :: p in template && p.name == key)
                  || (exists p :: p in blueprint && p.name == key)
                  || (exists p :: p in resource && p.name == key)
                  || (exists p :: p in owner && p.name == key))
  {
    hide LastDefault, LastOwner, LastParam;
  }

  /** An owner never gets past a value fixed by the governing parameter, and always past anything else. */
  lemma OwnerOverride(template: seq<TemplateParam>, blueprint: seq<BlueprintParam>, resource: seq<BlueprintParam>,
                      owner: seq<OwnerParam>, key: string)
    requires forall p :: p in blueprint || p in resource ==> Usable(p)
    requires LastOwner(owner, key).Some?
    ensures Chosen(template, blueprint, resource, owner, key)
            == match Governing(blueprint, resource, key)
               case None => LastOwner(owner, key)
               case Some(g) => if g.value.Some? then g.value else LastOwner(owner, key)
  {
    hide LastDefault, LastOwner, LastParam;
  }
}

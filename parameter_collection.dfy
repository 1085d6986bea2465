/**
 * An ordered collection of stored parameters, keyed by stored name.
 *
 * The collection starts empty and is changed in place by AddOrReplaceValue:
 * a property whose stored name is already present has its entry replaced at
 * the same position; any other property is appended. It serialises as
 * `{"count": N, "property": [...]}`, the properties in insertion order.
 */
module ParameterCollections {
  import opened Parameters

  /** The serialised form of a collection. */
  datatype Wire = Wire(count: int, property: seq<Property>)

  /** No two entries share a stored name. */
  predicate UniqueNames(props: seq<Property>) {
    forall i, j | 0 <= i < j < |props| :: props[i].name != props[j].name
  }

  /** The position of the first entry stored under `name`, or `|props|` when there is none. */
  function {:induction false} IndexOf(props: seq<Property>, name: string): (k: nat)
    ensures k <= |props|
    ensures k < |props| ==> props[k].name == name
    ensures forall j | 0 <= j < k :: props[j].name != name
  {
    if props == [] then 0
    else if props[0].name == name then 0
    else 1 + IndexOf(props[1..], name)
  }

  /**
   * Replace-or-append: the entry carrying `p`'s stored name is replaced by
   * `p` in its position, or, when there is none, `p` goes at the end.
   */
  function Upsert(props: seq<Property>, p: Property): (r: seq<Property>)
    ensures (exists i | 0 <= i < |props| :: props[i].name == p.name) ==> |r| == |props|
    ensures (forall i | 0 <= i < |props| :: props[i].name != p.name) ==> r == props + [p]
    ensures forall i | 0 <= i < |props| && props[i].name != p.name :: r[i] == props[i]
    ensures UniqueNames(props) ==> forall i | 0 <= i < |props| && props[i].name == p.name :: r[i] == p
    ensures UniqueNames(props) ==> UniqueNames(r)
  {
    var k := IndexOf(props, p.name);
    if k < |props| then props[k := p] else props + [p]
  }

  /**
   * The first entry stored under `name` is at `k` when `k` holds that name
   * and nothing before it does.
   */
  lemma IndexOfIsFirst(props: seq<Property>, name: string, k: nat)
    requires k <= |props|
    requires k < |props| ==> props[k].name == name
    requires forall j | 0 <= j < k :: props[j].name != name
    ensures IndexOf(props, name) == k
  {
  }

  /**
   * Two replace-or-appends with the same stored name: the second one lands
   * where the first did, so the length and the position are kept.
   */
  lemma {:induction false} UpsertSameNameTwice(props: seq<Property>, p: Property, q: Property)
    requires p.name == q.name
    ensures Upsert(Upsert(props, p), q) == Upsert(props, q)
  {
    var k := IndexOf(props, p.name);
    var once := Upsert(props, p);
    if k < |props| {
      assert once == props[k := p];
    } else {
      assert once == props + [p];
    }
    IndexOfIsFirst(once, q.name, k);
  }

  /**
   * Reading a serialised collection back: every property becomes one
   * parameter that stores back to it, its kind chosen by prefix ("system."
   * first, then "env.", else a configuration parameter).
   */
  function Deserialize(w: Wire): (params: seq<Parameter>)
    ensures |params| == |w.property|
    ensures forall i | 0 <= i < |params| :: ToProperty(params[i]) == w.property[i]
    ensures forall i | 0 <= i < |params| :: StartsWith(w.property[i].name, SystemPrefix) ==> params[i].kind == System
    ensures forall i | 0 <= i < |params| ::
              !StartsWith(w.property[i].name, SystemPrefix) && StartsWith(w.property[i].name, EnvPrefix) ==> params[i].kind == EnvironmentVariable
    ensures forall i | 0 <= i < |params| ::
              !StartsWith(w.property[i].name, SystemPrefix) && !StartsWith(w.property[i].name, EnvPrefix) ==> params[i].kind == Configuration
  {
    seq(|w.property|, i requires 0 <= i < |w.property| => Decode(w.property[i]))
  }

  /** The collection (`Parameters` with its `Count` and its property list). */
  class ParameterCollection {
    var count: int
    var properties: seq<Property>

    /** The count always equals the number of properties, and stored names are unique. */
    ghost predicate Valid()
      reads this
    {
      count == |properties| && UniqueNames(properties)
    }

    /** `NewParametersEmpty`. */
    constructor Empty()
      ensures Valid()
      ensures properties == []
    {
      count := 0;
      properties := [];
    }

    /**
     * `AddOrReplaceValue`: builds the parameter and stores its property by
     * replace-or-append. An empty name is rejected by the parameter
     * constructor; the collection is then left unchanged and `ok` is false.
     */
    method AddOrReplaceValue(kind: ParameterKind, name: string, value: string) returns (ok: bool)
      requires Valid()
      modifies this
      ensures Valid()
      ensures ok <==> name != []
      ensures ok ==> properties == Upsert(old(properties), ToProperty(Parameter(kind, name, value)))
      ensures !ok ==> properties == old(properties)
    {
      var param := NewParameter(kind, name, value);
      if param.Failure? {
        return false;
      }
      var prop := ToProperty(param.value);
      var i := 0;
      while i < |properties| && properties[i].name != prop.name
        invariant 0 <= i <= |properties|
        invariant forall j | 0 <= j < i :: properties[j].name != prop.name
      {
        i := i + 1;
      }
      IndexOfIsFirst(properties, prop.name, i);
      if i < |properties| {
        properties := properties[i := prop];
      } else {
        properties := properties + [prop];
        count := count + 1;
      }
      ok := true;
    }

    /** The wire form: the count and the property list in insertion order. */
    function Serialize(): (w: Wire)
      reads this
      requires Valid()
      ensures w.count == |w.property|
      ensures w.property == properties
    {
      Wire(count, properties)
    }
  }

  /** The stored forms of the three parameters added by CollectionSerialization. */
  lemma CollectionProperties()
    ensures ToProperty(Parameter(Configuration, "config", "value_config")) == Property("config", "value_config")
    ensures ToProperty(Parameter(System, "system", "value_system")) == Property("system.system", "value_system")
    ensures ToProperty(Parameter(EnvironmentVariable, "env", "value_env")) == Property("env.env", "value_env")
  {
    assert SystemPrefix + "system" == "system.system";
    assert EnvPrefix + "env" == "env.env";
  }

  /**
   * One configuration parameter, one system property and one environment
   * variable, added in that order to an empty collection.
   */
  method CollectionSerialization() returns (w: Wire)
    ensures w == Wire(3, [Property("config", "value_config"),
                          Property("system.system", "value_system"),
                          Property("env.env", "value_env")])
  {
    var config := Property("config", "value_config");
    var system := Property("system.system", "value_system");
    var env := Property("env.env", "value_env");
    CollectionProperties();
    assert config.name != system.name && config.name != env.name && system.name != env.name by {
      assert |config.name| == 6 && |system.name| == 13 && |env.name| == 7;
    }
    var c := new ParameterCollection.Empty();
    var ok := c.AddOrReplaceValue(Configuration, "config", "value_config");
    assert c.properties == [config];
    ok := c.AddOrReplaceValue(System, "system", "value_system");
    assert c.properties == [config, system];
    ok := c.AddOrReplaceValue(EnvironmentVariable, "env", "value_env");
    assert c.properties == [config, system, env];
    w := c.Serialize();
  }
}

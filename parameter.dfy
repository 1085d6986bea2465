/**
 * Typed build parameters and their flat, name-prefixed storage form.
 *
 * A parameter is a (kind, name, value) triple. The server stores it as one
 * property whose name carries the kind as a prefix: none for a configuration
 * parameter, "system." for a system property, "env." for an environment
 * variable. Reading a property back recovers the kind from that prefix, which
 * is only a best-effort inverse: a configuration parameter whose own name
 * already starts with one of the prefixes reads back as the other kind.
 */
module Parameters {
  import opened Wrappers
  import opened Errors

  datatype ParameterKind = Configuration | System | EnvironmentVariable

  const SystemPrefix: string := "system."
  const EnvPrefix: string := "env."

  /** The prefix each kind puts in front of the stored name. */
  function Prefix(kind: ParameterKind): (pre: string)
    ensures kind == Configuration <==> pre == []
  {
    match kind
    case Configuration => ""
    case System => SystemPrefix
    case EnvironmentVariable => EnvPrefix
  }

  /** A typed parameter; `name` is the user-facing name, without prefix. */
  datatype Parameter = Parameter(kind: ParameterKind, name: string, value: string)

  /** The flat storage unit, `{"name": <stored name>, "value": <value>}`. */
  datatype Property = Property(name: string, value: string)

  predicate StartsWith(s: string, pre: string) {
    |pre| <= |s| && s[..|pre|] == pre
  }

  /**
   * Builds a parameter. The only validation is that the name is not empty;
   * the value may be anything, the empty string included.
   */
  function NewParameter(kind: ParameterKind, name: string, value: string): (r: Result<Parameter, Error>)
    ensures r.Success? <==> name != []
    ensures r.Failure? ==> r.error == InvalidArgument
    ensures r.Success? ==> r.value.kind == kind && r.value.name == name && r.value.value == value
  {
    if name == [] then Failure(InvalidArgument) else Success(Parameter(kind, name, value))
  }

  /** The stored form of a parameter (`Property()` and `MarshalJSON`). */
  function ToProperty(p: Parameter): (prop: Property)
    ensures prop.value == p.value
    ensures StartsWith(prop.name, Prefix(p.kind))
    ensures prop.name[|Prefix(p.kind)|..] == p.name
  {
    Property(Prefix(p.kind) + p.name, p.value)
  }

  /**
   * Reads a stored property back as a parameter: a "system." prefix means a
   * system property, else an "env." prefix an environment variable, else a
   * configuration parameter with the name unchanged. Storing the result again
   * gives back exactly the property that was read.
   */
  function Decode(prop: Property): (p: Parameter)
    ensures ToProperty(p) == prop
    ensures p.kind == Configuration <==> !StartsWith(prop.name, SystemPrefix) && !StartsWith(prop.name, EnvPrefix)
    ensures StartsWith(prop.name, SystemPrefix) ==> p.kind == System
  {
    if StartsWith(prop.name, SystemPrefix) then
      Parameter(System, prop.name[|SystemPrefix|..], prop.value)
    else if StartsWith(prop.name, EnvPrefix) then
      Parameter(EnvironmentVariable, prop.name[|EnvPrefix|..], prop.value)
    else
      Parameter(Configuration, prop.name, prop.value)
  }

  /**
   * A parameter whose stored form reads back as itself: every system
   * property and environment variable, and every configuration parameter
   * whose name does not itself start with one of the two prefixes.
   */
  predicate Unambiguous(p: Parameter) {
    p.kind == Configuration ==> !StartsWith(p.name, SystemPrefix) && !StartsWith(p.name, EnvPrefix)
  }

  /** A name stored with the "env." prefix never passes the "system." test. */
  lemma EnvNameIsNotSystem(rest: string)
    ensures !StartsWith(EnvPrefix + rest, SystemPrefix)
  {
    var stored := EnvPrefix + rest;
    if |SystemPrefix| <= |stored| {
      assert stored[..|SystemPrefix|][0] == 'e' != SystemPrefix[0];
    }
  }

  /**
   * The round trip: reading back a stored parameter yields the parameter
   * itself exactly when it is unambiguous.
   */
  lemma {:induction false} DecodeEncode(p: Parameter)
    ensures Decode(ToProperty(p)) == p <==> Unambiguous(p)
  {
    var stored := ToProperty(p).name;
    match p.kind
    case Configuration =>
      assert stored == p.name;
    case System =>
      assert StartsWith(stored, SystemPrefix);
      assert stored[|SystemPrefix|..] == p.name;
    case EnvironmentVariable =>
      EnvNameIsNotSystem(p.name);
      assert stored == EnvPrefix + p.name;
      assert stored[|EnvPrefix|..] == p.name;
  }

  /** Two unambiguous parameters with the same stored form are the same parameter. */
  lemma {:induction false} EncodeInjective(p: Parameter, q: Parameter)
    requires Unambiguous(p) && Unambiguous(q)
    requires ToProperty(p) == ToProperty(q)
    ensures p == q
  {
    DecodeEncode(p);
    DecodeEncode(q);
  }

  /**
   * The documented ambiguity: a configuration parameter named "system.<n>"
   * and the system property <n> share one stored form, and it reads back as
   * the system property.
   */
  lemma ConfigurationNamedLikeSystem(n: string, v: string)
    ensures ToProperty(Parameter(Configuration, SystemPrefix + n, v)) == ToProperty(Parameter(System, n, v))
    ensures Decode(ToProperty(Parameter(Configuration, SystemPrefix + n, v))) == Parameter(System, n, v)
  {
    DecodeEncode(Parameter(System, n, v));
  }

  /**
   * `NewParameter(Configuration, "param1", "value1")` succeeds, is stored
   * under its own name, and reads back as itself.
   */
  lemma ConfigurationSerialization()
    ensures NewParameter(Configuration, "param1", "value1").Success?
    ensures ToProperty(NewParameter(Configuration, "param1", "value1").value) == Property("param1", "value1")
    ensures Decode(Property("param1", "value1")) == NewParameter(Configuration, "param1", "value1").value
  {
    assert !StartsWith("param1", EnvPrefix) by {
      assert "param1"[..|EnvPrefix|][0] == 'p' != EnvPrefix[0];
    }
    DecodeEncode(Parameter(Configuration, "param1", "value1"));
  }

  /**
   * `NewParameter(System, "param1", "value1")` succeeds, is stored under
   * "system." + its name, and reads back as itself.
   */
  lemma SystemSerialization()
    ensures NewParameter(System, "param1", "value1").Success?
    ensures ToProperty(NewParameter(System, "param1", "value1").value) == Property("system.param1", "value1")
    ensures Decode(Property("system.param1", "value1")) == NewParameter(System, "param1", "value1").value
  {
    DecodeEncode(Parameter(System, "param1", "value1"));
  }

  /**
   * `NewParameter(EnvironmentVariable, "param1", "value1")` succeeds, is
   * stored under "env." + its name, and reads back as itself.
   */
  lemma EnvironmentVariableSerialization()
    ensures NewParameter(EnvironmentVariable, "param1", "value1").Success?
    ensures ToProperty(NewParameter(EnvironmentVariable, "param1", "value1").value) == Property("env.param1", "value1")
    ensures Decode(Property("env.param1", "value1")) == NewParameter(EnvironmentVariable, "param1", "value1").value
  {
    DecodeEncode(Parameter(EnvironmentVariable, "param1", "value1"));
  }

  /** `Property()` of each freshly built parameter prefixes the name by kind and passes the value through. */
  lemma ConvertToProperty()
    ensures NewParameter(Configuration, "name", "value_config").Success?
    ensures ToProperty(NewParameter(Configuration, "name", "value_config").value) == Property("name", "value_config")
    ensures NewParameter(System, "name", "value_system").Success?
    ensures ToProperty(NewParameter(System, "name", "value_system").value) == Property("system.name", "value_system")
    ensures NewParameter(EnvironmentVariable, "name", "value_env").Success?
    ensures ToProperty(NewParameter(EnvironmentVariable, "name", "value_env").value) == Property("env.name", "value_env")
  {
    assert SystemPrefix + "name" == "system.name";
    assert EnvPrefix + "name" == "env.name";
  }
}

/** The properties dictionary of a network and the defaults that fill its gaps. */
module Settings {
  import opened Util

  /** The 'weight' property: a constant raw weight, or 'random' (a uniform draw per edge). */
  datatype WeightMode = FixedWeight(w: real) | RandomWeight

  /** The 'visibility' property: 'visible', 'random', or any other string
      (then only a node's view of itself is ever set). */
  datatype Visibility = Visible | RandomVisibility | Hidden

  function VisibilityOf(tag: string): (v: Visibility)
    ensures v == Visible <==> tag == "visible"
    ensures v == RandomVisibility <==> tag == "random"
  {
    if tag == "visible" then Visible else if tag == "random" then RandomVisibility else Hidden
  }

  /** A value of the per-archetype resistance dictionary.  Only a Python float
      or the string 'random' has an effect; anything else (an int, another
      string) is ignored. */
  datatype ResistanceValue = ResFloat(x: real) | ResRandom | ResIgnored

  /** The 'resistance_param' property. */
  datatype ResistanceParam =
    | ParamFloat(x: real)
    | ParamRandom
    | ParamPerType(entries: seq<(string, ResistanceValue)>)
    | ParamIgnored

  /** The entries of the properties dictionary that are given defaults; a
      missing key is None. */
  datatype Props = Props(
    n: Option<int>,
    directed: Option<bool>,
    symmetric: Option<bool>,
    topology: Option<string>,
    saturation: Option<real>,
    dimensions: Option<int>,
    visibility: Option<string>,
    weight: Option<WeightMode>,
    unfriend: Option<real>,
    update: Option<real>,
    resistanceParam: Option<ResistanceParam>)

  const DefaultSaturation: real := 0.1
  const DefaultWeight: WeightMode := FixedWeight(1.0)
  const DefaultUnfriend: real := 1.0
  const DefaultUpdate: real := 1.0
  const DefaultResistance: ResistanceParam := ParamFloat(0.0)

  predicate Complete(p: Props)
  {
    && p.n.Some? && p.directed.Some? && p.symmetric.Some? && p.topology.Some?
    && p.saturation.Some? && p.dimensions.Some? && p.visibility.Some? && p.weight.Some?
    && p.unfriend.Some? && p.update.Some? && p.resistanceParam.Some?
  }

  function OrElse<T>(o: Option<T>, d: T): Option<T>
  {
    if o.Some? then o else Some(d)
  }

  /** _validate_input: every missing entry gets its default, and a true
      'symmetric' makes the network directed, whatever 'directed' said. */
  function ValidateInput(p: Props): (r: Props)
    ensures Complete(r)
    ensures r.symmetric.value ==> r.directed.value
    ensures r.directed.value <==> p.directed == Some(true) || p.symmetric == Some(true)
    ensures r.symmetric.value <==> p.symmetric == Some(true)
    ensures p.n.Some? ==> r.n == p.n
    ensures p.n.None? ==> r.n == Some(0)
    ensures p.topology.None? ==> r.topology == Some("")
    ensures p.dimensions.None? ==> r.dimensions == Some(1)
    ensures p.visibility.None? ==> r.visibility == Some("visible")
    ensures p.weight.None? ==> r.weight == Some(FixedWeight(1.0))
    ensures p.unfriend.None? ==> r.unfriend == Some(1.0)
    ensures p.update.None? ==> r.update == Some(1.0)
    ensures p.resistanceParam.None? ==> r.resistanceParam == Some(ParamFloat(0.0))
    ensures p.saturation.None? ==> r.saturation == Some(0.1)
    ensures p.topology.Some? ==> r.topology == p.topology
    ensures p.saturation.Some? ==> r.saturation == p.saturation
    ensures p.dimensions.Some? ==> r.dimensions == p.dimensions
    ensures p.visibility.Some? ==> r.visibility == p.visibility
    ensures p.weight.Some? ==> r.weight == p.weight
    ensures p.unfriend.Some? ==> r.unfriend == p.unfriend
    ensures p.update.Some? ==> r.update == p.update
    ensures p.resistanceParam.Some? ==> r.resistanceParam == p.resistanceParam
  {
    var symmetric := p.symmetric.Some? && p.symmetric.value;
    var directed := symmetric || (p.directed.Some? && p.directed.value);
    Props(
      OrElse(p.n, 0),
      Some(directed),
      Some(symmetric),
      OrElse(p.topology, ""),
      OrElse(p.saturation, DefaultSaturation),
      OrElse(p.dimensions, 1),
      OrElse(p.visibility, "visible"),
      OrElse(p.weight, DefaultWeight),
      OrElse(p.unfriend, DefaultUnfriend),
      OrElse(p.update, DefaultUpdate),
      OrElse(p.resistanceParam, DefaultResistance))
  }

  /** Filling in defaults twice changes nothing more than filling them in once. */
  lemma ValidateInputIdempotent(p: Props)
    ensures ValidateInput(ValidateInput(p)) == ValidateInput(p)
  {
  }

  /** A dictionary that already holds every entry keeps it, except that
      'directed' follows a true 'symmetric'. */
  lemma ValidateInputKeepsGiven(p: Props)
    requires Complete(p)
    ensures ValidateInput(p) == p.(directed := Some(p.directed.value || p.symmetric.value))
  {
  }
}

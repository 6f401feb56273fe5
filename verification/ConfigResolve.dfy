/** Layered configuration: the highest layer that speaks wins, and a repository may only tighten the mode. */
module ConfigResolve {
  import opened Optional

  datatype Source = Builtin | User | Project | Env | Cli | Session {
    function Rank(): nat {
      match this
      case Builtin => 0
      case User => 1
      case Project => 2
      case Env => 3
      case Cli => 4
      case Session => 5
    }

    predicate IsOperatorControlled() { this != Project }
  }

  const ALL_SOURCES: seq<Source> := [Builtin, User, Project, Env, Cli, Session]

  datatype Mode = Plan | Ask | Auto | Yolo {
    /** Position from the permissive end. */
    function Strictness(): nat {
      match this
      case Plan => 3
      case Ask => 2
      case Auto => 1
      case Yolo => 0
    }
  }

  datatype Provider = Provider(endpoint: Option<string>, model: Option<string>, apiKeyEnv: Option<string>, apiKeyKeyring: Option<string>)

  datatype Layer = Layer(thinking: Option<nat>, limit: Option<nat>, mode: Option<Mode>, threshold: Option<nat>,
                         providers: Option<map<string, Provider>>)

  datatype Entry = Entry(source: Source, layer: Layer)

  const DEFAULT_THINKING_BUDGET: nat := 0
  const DEFAULT_PEER_LIMIT: nat := 16
  const DEFAULT_MODE: Mode := Auto
  const DEFAULT_THRESHOLD: nat := 93

  datatype Setting<+T> = Setting(value: T, source: Source)

  datatype Config = Config(thinking: Setting<nat>, limit: Setting<nat>, mode: Setting<Mode>, threshold: Setting<nat>,
                           providers: map<string, Provider>, providerSources: map<string, Source>)

  // ----- precedence order -----

  function From(layers: seq<Entry>, source: Source): (r: seq<Entry>)
    ensures forall e :: e in r <==> e in layers && e.source == source
  {
    if layers == [] then []
    else (if layers[0].source == source then [layers[0]] else []) + From(layers[1..], source)
  }

  function FromEach(layers: seq<Entry>, sources: seq<Source>): seq<Entry> {
    if sources == [] then [] else From(layers, sources[0]) + FromEach(layers, sources[1..])
  }

  /** The stable sort by source. */
  function ByPrecedence(layers: seq<Entry>): seq<Entry> { FromEach(layers, ALL_SOURCES) }

  ghost predicate Climbs(ordered: seq<Entry>) {
    forall i, j :: 0 <= i < j < |ordered| ==> ordered[i].source.Rank() <= ordered[j].source.Rank()
  }

  ghost predicate Ranked(sources: seq<Source>) {
    forall i, j :: 0 <= i < j < |sources| ==> sources[i].Rank() < sources[j].Rank()
  }

  lemma {:induction false} FromEachClimbs(layers: seq<Entry>, sources: seq<Source>)
    requires Ranked(sources)
    ensures Climbs(FromEach(layers, sources))
    ensures forall e :: e in FromEach(layers, sources) <==> e in layers && e.source in sources
    decreases |sources|
  {
    if sources != [] {
      FromEachClimbs(layers, sources[1..]);
      var (first, later) := (From(layers, sources[0]), FromEach(layers, sources[1..]));
      forall i | 0 <= i < |first| ensures first[i].source == sources[0] {
        assert first[i] in first;
      }
      forall j | 0 <= j < |later| ensures sources[0].Rank() < later[j].source.Rank() {
        assert later[j] in later;
        assert later[j].source in sources[1..];
      }
    }
  }

  lemma AllSourcesListed()
    ensures Ranked(ALL_SOURCES) && forall s: Source :: s in ALL_SOURCES
  {
    forall s: Source ensures s in ALL_SOURCES {
      assert s == ALL_SOURCES[s.Rank()];
    }
  }

  lemma ByPrecedenceClimbs(layers: seq<Entry>)
    ensures Climbs(ByPrecedence(layers))
    ensures forall e :: e in ByPrecedence(layers) <==> e in layers
  {
    hide FromEach, Climbs;
    AllSourcesListed();
    FromEachClimbs(layers, ALL_SOURCES);
  }

  // ----- who speaks last -----

  /** The last allowed layer that says something, and what it says. */
  function Spoken<T>(ordered: seq<Entry>, speak: Layer -> Option<T>, allowed: Source -> bool): Option<Setting<T>> {
    if ordered == [] then None
    else
      var last := ordered[|ordered| - 1];
      if allowed(last.source) && speak(last.layer).Some? then Some(Setting(speak(last.layer).value, last.source))
      else Spoken(ordered[..|ordered| - 1], speak, allowed)
  }

  function OrElse<T>(spoken: Option<Setting<T>>, default: T): Setting<T> {
    if spoken.Some? then spoken.value else Setting(default, Builtin)
  }

  ghost predicate Speaks<T>(e: Entry, speak: Layer -> Option<T>, allowed: Source -> bool) {
    allowed(e.source) && speak(e.layer).Some?
  }

  /** Some layer of `layers` says this, and no layer that may speak outranks it. */
  ghost predicate IsHighest<T>(s: Setting<T>, layers: seq<Entry>, speak: Layer -> Option<T>, allowed: Source -> bool) {
    && (exists e :: e in layers && e.source == s.source && Speaks(e, speak, allowed) && speak(e.layer) == Some(s.value))
    && (forall e :: e in layers && Speaks(e, speak, allowed) ==> e.source.Rank() <= s.source.Rank())
  }

  lemma {:induction false} SpokenIsHighestOf<T>(ordered: seq<Entry>, speak: Layer -> Option<T>, allowed: Source -> bool)
    requires Climbs(ordered)
    ensures match Spoken(ordered, speak, allowed)
            case None => forall e :: e in ordered ==> !Speaks(e, speak, allowed)
            case Some(s) => IsHighest(s, ordered, speak, allowed)
    decreases |ordered|
  {
    if ordered != [] {
      var n := |ordered| - 1;
      var (front, last) := (ordered[..n], ordered[n]);
      assert ordered == front + [last];
      if Speaks(last, speak, allowed) {
        assert last in ordered;
        forall e | e in ordered ensures e.source.Rank() <= last.source.Rank() {
          var i :| 0 <= i < |ordered| && ordered[i] == e;
        }
      } else {
        SpokenIsHighestOf(front, speak, allowed);
      }
    }
  }

  /** Whatever order the layers come in: the value of the highest layer that speaks, or none when none does. */
  lemma SpokenIsHighest<T>(layers: seq<Entry>, speak: Layer -> Option<T>, allowed: Source -> bool)
    ensures match Spoken(ByPrecedence(layers), speak, allowed)
            case None => forall e :: e in layers ==> !Speaks(e, speak, allowed)
            case Some(s) => IsHighest(s, layers, speak, allowed)
  {
    ByPrecedenceClimbs(layers);
    hide ByPrecedence, Climbs, Speaks;
    SpokenIsHighestOf(ByPrecedence(layers), speak, allowed);
  }

  // ----- the resolved configuration -----

  const THINKING: Layer -> Option<nat> := (l: Layer) => l.thinking
  const LIMIT: Layer -> Option<nat> := (l: Layer) => l.limit
  const MODE: Layer -> Option<Mode> := (l: Layer) => l.mode
  const THRESHOLD: Layer -> Option<nat> := (l: Layer) => l.threshold

  const ANYONE: Source -> bool := (_: Source) => true
  const OPERATOR: Source -> bool := (s: Source) => s.IsOperatorControlled()

  function ProviderNamed(name: string): Layer -> Option<Provider> {
    (l: Layer) => if l.providers.Some? && name in l.providers.value then Some(l.providers.value[name]) else None
  }

  /** Each provider is the whole entry of the last layer that names it. */
  ghost predicate ProvidersAre(providers: map<string, Provider>, sources: map<string, Source>, ordered: seq<Entry>) {
    forall name :: ProviderIs(providers, sources, ordered, name)
  }

  ghost predicate ProviderIs(providers: map<string, Provider>, sources: map<string, Source>, ordered: seq<Entry>, name: string) {
    match Spoken(ordered, ProviderNamed(name), ANYONE)
    case None => name !in providers && name !in sources
    case Some(s) => name in providers && name in sources && Setting(providers[name], sources[name]) == s
  }

  /** The mode that ordinary precedence among the operator's own layers gives. */
  function OperatorMode(layers: seq<Entry>): Setting<Mode> {
    OrElse(Spoken(ByPrecedence(layers), MODE, OPERATOR), DEFAULT_MODE)
  }

  /** A layer that is not the operator's replaces the mode only by a stricter one. */
  function Tightened(ordered: seq<Entry>, mode: Setting<Mode>): Setting<Mode> {
    if ordered == [] then mode
    else
      var (earlier, e) := (Tightened(ordered[..|ordered| - 1], mode), ordered[|ordered| - 1]);
      if !e.source.IsOperatorControlled() && e.layer.mode.Some? && e.layer.mode.value.Strictness() > earlier.value.Strictness()
      then Setting(e.layer.mode.value, e.source)
      else earlier
  }

  ghost predicate IsResolved(config: Config, layers: seq<Entry>) {
    var ordered := ByPrecedence(layers);
    && config.thinking == OrElse(Spoken(ordered, THINKING, ANYONE), DEFAULT_THINKING_BUDGET)
    && config.limit == OrElse(Spoken(ordered, LIMIT, ANYONE), DEFAULT_PEER_LIMIT)
    && config.threshold == OrElse(Spoken(ordered, THRESHOLD, ANYONE), DEFAULT_THRESHOLD)
    && config.mode == Tightened(ordered, OperatorMode(layers))
    && ProvidersAre(config.providers, config.providerSources, ordered)
  }

  /** A request from a layer that the operator does not control. */
  ghost predicate Requests(e: Entry, mode: Mode) {
    !e.source.IsOperatorControlled() && e.layer.mode == Some(mode)
  }

  /** Never looser than `start`, as strict as every request, and no stricter than it takes; changes are attributed to the requester. */
  ghost predicate IsStrictest(final: Setting<Mode>, start: Setting<Mode>, layers: seq<Entry>) {
    && final.value.Strictness() >= start.value.Strictness()
    && (forall e, m :: e in layers && Requests(e, m) ==> final.value.Strictness() >= m.Strictness())
    && (final == start || (final.value.Strictness() > start.value.Strictness()
                           && exists e :: e in layers && Requests(e, final.value) && e.source == final.source))
  }

  lemma {:induction false} TighteningIsTheMaximum(ordered: seq<Entry>, start: Setting<Mode>)
    ensures IsStrictest(Tightened(ordered, start), start, ordered)
    decreases |ordered|
  {
    if ordered != [] {
      var n := |ordered| - 1;
      assert ordered == ordered[..n] + [ordered[n]];
      assert ordered[n] in ordered;
      TighteningIsTheMaximum(ordered[..n], start);
    }
  }

  /** The final mode is the stricter of what the operator chose and what any repository layer asks for. */
  lemma ModeOnlyTightens(config: Config, layers: seq<Entry>)
    requires IsResolved(config, layers)
    ensures IsStrictest(config.mode, OperatorMode(layers), layers)
  {
    ByPrecedenceClimbs(layers);
    TighteningIsTheMaximum(ByPrecedence(layers), OperatorMode(layers));
    hide ByPrecedence, Spoken, Climbs, Requests;
    var final := Tightened(ByPrecedence(layers), OperatorMode(layers));
    assert forall e :: e in layers ==> e in ByPrecedence(layers);
    assert forall e :: e in ByPrecedence(layers) ==> e in layers;
  }

  ghost predicate HighestOrDefault<T>(s: Setting<T>, layers: seq<Entry>, speak: Layer -> Option<T>, default: T) {
    IsHighest(s, layers, speak, ANYONE) || (s == Setting(default, Builtin) && forall e :: e in layers ==> !Speaks(e, speak, ANYONE))
  }

  ghost predicate ProviderIsHighest(config: Config, layers: seq<Entry>, name: string) {
    if name in config.providers then
      && name in config.providerSources
      && IsHighest(Setting(config.providers[name], config.providerSources[name]), layers, ProviderNamed(name), ANYONE)
    else forall e :: e in layers ==> !Speaks(e, ProviderNamed(name), ANYONE)
  }

  /** Every scalar but the mode, and every provider as a whole, comes from the highest layer that speaks of it, and is said to. */
  lemma HighestLayerDecides(config: Config, layers: seq<Entry>)
    requires IsResolved(config, layers)
    ensures HighestOrDefault(config.thinking, layers, THINKING, DEFAULT_THINKING_BUDGET)
    ensures HighestOrDefault(config.limit, layers, LIMIT, DEFAULT_PEER_LIMIT)
    ensures HighestOrDefault(config.threshold, layers, THRESHOLD, DEFAULT_THRESHOLD)
    ensures forall name :: ProviderIsHighest(config, layers, name)
  {
    SpokenIsHighest(layers, THINKING, ANYONE);
    SpokenIsHighest(layers, LIMIT, ANYONE);
    SpokenIsHighest(layers, THRESHOLD, ANYONE);
    hide Spoken, ByPrecedence, IsHighest, Speaks;
    forall name: string ensures ProviderIsHighest(config, layers, name) {
      SpokenIsHighest(layers, ProviderNamed(name), ANYONE);
      assert ProviderIs(config.providers, config.providerSources, ByPrecedence(layers), name);
    }
  }

  // ----- order does not matter -----

  ghost predicate DistinctSources(layers: seq<Entry>) {
    forall i, j :: 0 <= i < j < |layers| ==> layers[i].source != layers[j].source
  }

  lemma {:induction false} NoneFrom(layers: seq<Entry>, source: Source)
    requires forall i :: 0 <= i < |layers| ==> layers[i].source != source
    ensures From(layers, source) == []
    decreases |layers|
  {
    if layers != [] {
      NoneFrom(layers[1..], source);
    }
  }

  lemma {:induction false} AtMostOne(layers: seq<Entry>, source: Source)
    requires DistinctSources(layers)
    ensures |From(layers, source)| <= 1
    decreases |layers|
  {
    if layers != [] {
      if layers[0].source == source {
        NoneFrom(layers[1..], source);
      } else {
        AtMostOne(layers[1..], source);
      }
    }
  }

  lemma SameFrom(a: seq<Entry>, b: seq<Entry>, source: Source)
    requires DistinctSources(a) && DistinctSources(b) && forall e :: e in a <==> e in b
    ensures From(a, source) == From(b, source)
  {
    AtMostOne(a, source);
    AtMostOne(b, source);
    hide From, DistinctSources;
    AtMostOneEach(From(a, source), From(b, source));
  }

  lemma AtMostOneEach(x: seq<Entry>, y: seq<Entry>)
    requires |x| <= 1 && |y| <= 1 && forall e :: e in x <==> e in y
    ensures x == y
  {
    assert x != [] ==> x[0] in y;
    assert y != [] ==> y[0] in x;
  }

  lemma {:induction false} SameFromEach(a: seq<Entry>, b: seq<Entry>, sources: seq<Source>)
    requires DistinctSources(a) && DistinctSources(b) && forall e :: e in a <==> e in b
    ensures FromEach(a, sources) == FromEach(b, sources)
    decreases |sources|
  {
    if sources != [] {
      SameFrom(a, b, sources[0]);
      SameFromEach(a, b, sources[1..]);
    }
  }

  lemma ProvidersAreDetermined(p: map<string, Provider>, ps: map<string, Source>, q: map<string, Provider>, qs: map<string, Source>,
                               ordered: seq<Entry>)
    requires ProvidersAre(p, ps, ordered) && ProvidersAre(q, qs, ordered)
    ensures p == q && ps == qs
  {
    forall name: string ensures name in p <==> name in q
      ensures name in ps <==> name in qs
      ensures name in p ==> name in q && name in ps && name in qs && p[name] == q[name] && ps[name] == qs[name]
    {
      assert ProviderIs(p, ps, ordered, name) && ProviderIs(q, qs, ordered, name);
    }
    assert forall name :: name in ps ==> ProviderIs(p, ps, ordered, name);
  }

  /** Layers with distinct sources resolve to one configuration, in whatever order they are given. */
  lemma OrderDoesNotMatter(a: seq<Entry>, b: seq<Entry>, x: Config, y: Config)
    requires DistinctSources(a) && DistinctSources(b) && multiset(a) == multiset(b)
    requires IsResolved(x, a) && IsResolved(y, b)
    ensures x == y
  {
    assert forall e :: (e in a <==> e in multiset(a)) && (e in b <==> e in multiset(b));
    SameFromEach(a, b, ALL_SOURCES);
    ProvidersAreDetermined(x.providers, x.providerSources, y.providers, y.providerSources, ByPrecedence(a));
  }

  // ----- the resolution itself -----

  lemma SpokenOneMore<T>(ordered: seq<Entry>, i: nat, speak: Layer -> Option<T>, allowed: Source -> bool)
    requires i < |ordered|
    ensures Spoken(ordered[..i + 1], speak, allowed)
            == if allowed(ordered[i].source) && speak(ordered[i].layer).Some? then Some(Setting(speak(ordered[i].layer).value, ordered[i].source))
               else Spoken(ordered[..i], speak, allowed)
  {
    assert ordered[..i + 1][..i] == ordered[..i];
  }

  /** The entries not yet copied keep what was there before. */
  ghost predicate Copied(entries: map<string, Provider>, left: set<string>, source: Source,
                         p: map<string, Provider>, ps: map<string, Source>, p': map<string, Provider>, ps': map<string, Source>) {
    forall name: string ::
      if name in entries && name !in left then name in p' && p'[name] == entries[name] && name in ps' && ps'[name] == source
      else Same(p, p', name) && Same(ps, ps', name)
  }

  predicate Same<T(==)>(p: map<string, T>, q: map<string, T>, name: string) {
    if name in p then name in q && q[name] == p[name] else name !in q
  }

  lemma CopyOne(entries: map<string, Provider>, left: set<string>, source: Source, p: map<string, Provider>, ps: map<string, Source>,
                p': map<string, Provider>, ps': map<string, Source>, name: string)
    requires Copied(entries, left, source, p, ps, p', ps') && name in entries
    ensures Copied(entries, left - {name}, source, p, ps, p'[name := entries[name]], ps'[name := source])
  {
  }

  /** Every provider of one layer replaces what was there under its name. */
  method InsertProviders(entries: map<string, Provider>, source: Source, providers: map<string, Provider>, sources: map<string, Source>)
    returns (providers': map<string, Provider>, sources': map<string, Source>)
    ensures Copied(entries, {}, source, providers, sources, providers', sources')
  {
    providers', sources' := providers, sources;
    var left := entries.Keys;
    hide Copied;
    NothingCopied(entries, source, providers, sources);
    while left != {}
      invariant left <= entries.Keys && Copied(entries, left, source, providers, sources, providers', sources')
      decreases |left|
    {
      var name :| name in left;
      CopyOne(entries, left, source, providers, sources, providers', sources', name);
      providers' := providers'[name := entries[name]];
      sources' := sources'[name := source];
      left := left - {name};
    }
  }

  lemma NothingCopied(entries: map<string, Provider>, source: Source, p: map<string, Provider>, ps: map<string, Source>)
    ensures Copied(entries, entries.Keys, source, p, ps, p, ps)
  {
  }

  lemma ProvidersOneMore(ordered: seq<Entry>, i: nat, p: map<string, Provider>, ps: map<string, Source>,
                         p': map<string, Provider>, ps': map<string, Source>)
    requires i < |ordered| && ProvidersAre(p, ps, ordered[..i])
    requires if ordered[i].layer.providers.Some? then Copied(ordered[i].layer.providers.value, {}, ordered[i].source, p, ps, p', ps')
             else p' == p && ps' == ps
    ensures ProvidersAre(p', ps', ordered[..i + 1])
  {
    hide Spoken;
    var (done, longer) := (ordered[..i], ordered[..i + 1]);
    forall name: string ensures ProviderIs(p', ps', longer, name) {
      SpokenOneMore(ordered, i, ProviderNamed(name), ANYONE);
      assert ProviderIs(p, ps, done, name);
    }
  }

  lemma NothingResolved()
    ensures ProvidersAre(map[], map[], [])
  {
  }

  /** What the first pass has gathered from the layers so far. */
  ghost predicate Gathered(config: Config, ordered: seq<Entry>) {
    && config.thinking == OrElse(Spoken(ordered, THINKING, ANYONE), DEFAULT_THINKING_BUDGET)
    && config.limit == OrElse(Spoken(ordered, LIMIT, ANYONE), DEFAULT_PEER_LIMIT)
    && config.threshold == OrElse(Spoken(ordered, THRESHOLD, ANYONE), DEFAULT_THRESHOLD)
    && config.mode == OrElse(Spoken(ordered, MODE, OPERATOR), DEFAULT_MODE)
    && ProvidersAre(config.providers, config.providerSources, ordered)
  }

  /** Four scalars by precedence, the mode only among the operator's layers. */
  function Overridden(c: Config, e: Entry): Config {
    c.(thinking := if e.layer.thinking.Some? then Setting(e.layer.thinking.value, e.source) else c.thinking,
       limit := if e.layer.limit.Some? then Setting(e.layer.limit.value, e.source) else c.limit,
       mode := if e.layer.mode.Some? && e.source.IsOperatorControlled() then Setting(e.layer.mode.value, e.source) else c.mode,
       threshold := if e.layer.threshold.Some? then Setting(e.layer.threshold.value, e.source) else c.threshold)
  }

  lemma GatherOneMore(ordered: seq<Entry>, i: nat, c: Config, c': Config)
    requires i < |ordered| && Gathered(c, ordered[..i])
    requires c' == Overridden(c, ordered[i]).(providers := c'.providers, providerSources := c'.providerSources)
    requires ProvidersAre(c'.providers, c'.providerSources, ordered[..i + 1])
    ensures Gathered(c', ordered[..i + 1])
  {
    hide Spoken, ProvidersAre;
    SpokenOneMore(ordered, i, THINKING, ANYONE);
    SpokenOneMore(ordered, i, LIMIT, ANYONE);
    SpokenOneMore(ordered, i, THRESHOLD, ANYONE);
    SpokenOneMore(ordered, i, MODE, OPERATOR);
  }

  /** First pass: every field from the last layer that speaks. */
  method Gather(ordered: seq<Entry>) returns (config: Config)
    ensures Gathered(config, ordered)
  {
    config := Config(Setting(DEFAULT_THINKING_BUDGET, Builtin), Setting(DEFAULT_PEER_LIMIT, Builtin), Setting(DEFAULT_MODE, Builtin),
                     Setting(DEFAULT_THRESHOLD, Builtin), map[], map[]);
    NothingResolved();
    assert ordered[..0] == [] && Gathered(config, []);
    hide Gathered, ProvidersAre;
    for i := 0 to |ordered|
      invariant Gathered(config, ordered[..i])
    {
      ghost var before := config;
      var e := ordered[i];
      var (providers, sources) := (config.providers, config.providerSources);
      if e.layer.providers.Some? {
        providers, sources := InsertProviders(e.layer.providers.value, e.source, providers, sources);
      }
      GatheredProviders(before, ordered[..i]);
      ProvidersOneMore(ordered, i, before.providers, before.providerSources, providers, sources);
      config := Overridden(config, e).(providers := providers, providerSources := sources);
      GatherOneMore(ordered, i, before, config);
    }
    assert ordered[..|ordered|] == ordered;
  }

  lemma GatheredProviders(c: Config, ordered: seq<Entry>)
    requires Gathered(c, ordered)
    ensures ProvidersAre(c.providers, c.providerSources, ordered)
  {
  }

  /** Second pass: a layer the operator does not control may only make the mode stricter. */
  method Tighten(ordered: seq<Entry>, start: Setting<Mode>) returns (mode: Setting<Mode>)
    ensures mode == Tightened(ordered, start)
  {
    mode := start;
    for i := 0 to |ordered|
      invariant mode == Tightened(ordered[..i], start)
    {
      assert ordered[..i + 1][..i] == ordered[..i];
      var e := ordered[i];
      if !e.source.IsOperatorControlled() && e.layer.mode.Some? {
        var requested := e.layer.mode.value;
        if requested.Strictness() > mode.value.Strictness() {
          mode := Setting(requested, e.source);
        }
      }
    }
    assert ordered[..|ordered|] == ordered;
  }

  method Resolve(layers: seq<Entry>) returns (config: Config)
    ensures IsResolved(config, layers)
  {
    var ordered := ByPrecedence(layers);
    config := Gather(ordered);
    var mode := Tighten(ordered, config.mode);
    hide ProvidersAre, Spoken, ByPrecedence;
    config := config.(mode := mode);
  }
}

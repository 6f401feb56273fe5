/** What resolution promises, with the sources, the modes and the fields written out. */
module ConfigLaws {
  import opened Optional
  import opened ConfigResolve

  // ----- the ladder and the modes -----

  /** The ladder builtin, user, project, env, cli, session, ascending. */
  predicate Above(a: Source, b: Source) {
    match b
    case Builtin => a != Builtin
    case User => a == Project || a == Env || a == Cli || a == Session
    case Project => a == Env || a == Cli || a == Session
    case Env => a == Cli || a == Session
    case Cli => a == Session
    case Session => false
  }

  /** The modes yolo, auto, ask, plan, from permissive to restrictive. */
  predicate Stricter(a: Mode, b: Mode) {
    match b
    case Yolo => a != Yolo
    case Auto => a == Ask || a == Plan
    case Ask => a == Plan
    case Plan => false
  }

  lemma LadderIsRank(a: Source, b: Source)
    ensures Above(a, b) <==> a.Rank() > b.Rank()
  {
  }

  lemma OrderIsStrictness(a: Mode, b: Mode)
    ensures Stricter(a, b) <==> a.Strictness() > b.Strictness()
    ensures a.Strictness() == b.Strictness() <==> a == b
  {
  }

  // ----- scalars and providers -----

  /** What a layer says of one field. */
  datatype Said<T> = Said(source: Source, value: Option<T>)

  /** `s` is said by some entry, and no entry above it says anything; or nothing is said and `s` is the builtin default. */
  ghost predicate Decides<T>(s: Setting<T>, said: seq<Said<T>>, default: T) {
    || ((exists i :: 0 <= i < |said| && said[i] == Said(s.source, Some(s.value)))
        && forall i :: 0 <= i < |said| && said[i].value.Some? ==> !Above(said[i].source, s.source))
    || (s == Setting(default, Builtin) && forall i :: 0 <= i < |said| ==> said[i].value.None?)
  }

  function Say<T>(layers: seq<Entry>, field: Layer -> Option<T>): (said: seq<Said<T>>)
    ensures |said| == |layers|
    ensures forall i :: 0 <= i < |said| ==> said[i] == Said(layers[i].source, field(layers[i].layer))
  {
    seq(|layers|, i requires 0 <= i < |layers| => Said(layers[i].source, field(layers[i].layer)))
  }

  lemma HighestDecides<T>(s: Setting<T>, layers: seq<Entry>, speak: Layer -> Option<T>, default: T)
    requires HighestOrDefault(s, layers, speak, default)
    ensures Decides(s, Say(layers, speak), default)
  {
    var said := Say(layers, speak);
    forall i | 0 <= i < |said| ensures layers[i] in layers && (Above(said[i].source, s.source) <==> said[i].source.Rank() > s.source.Rank()) {
      LadderIsRank(said[i].source, s.source);
    }
    hide Above, Source.Rank, ANYONE;
    if IsHighest(s, layers, speak, ANYONE) {
      AnyoneSpeaks(speak);
      var e :| e in layers && e.source == s.source && Speaks(e, speak, ANYONE) && speak(e.layer) == Some(s.value);
      var i :| 0 <= i < |layers| && layers[i] == e;
      assert said[i] == Said(s.source, Some(s.value));
    } else {
      AnyoneSpeaks(speak);
      forall i | 0 <= i < |said| ensures said[i].value.None? {
        assert !Speaks(layers[i], speak, ANYONE);
      }
    }
  }

  lemma AnyoneSpeaks<T>(speak: Layer -> Option<T>)
    ensures forall e :: Speaks(e, speak, ANYONE) <==> speak(e.layer).Some?
  {
  }

  /** Each scalar but the mode is what the highest layer that sets its own field says, with that layer's name; the defaults are reasoning off, sixteen peers and 93 percent. */
  lemma EachFieldIsItsOwn(config: Config, layers: seq<Entry>)
    requires IsResolved(config, layers)
    ensures Decides(config.thinking, Say(layers, (l: Layer) => l.thinking), 0)
    ensures Decides(config.limit, Say(layers, (l: Layer) => l.limit), 16)
    ensures Decides(config.threshold, Say(layers, (l: Layer) => l.threshold), 93)
  {
    HighestLayerDecides(config, layers);
    HighestDecides(config.thinking, layers, THINKING, DEFAULT_THINKING_BUDGET);
    HighestDecides(config.limit, layers, LIMIT, DEFAULT_PEER_LIMIT);
    HighestDecides(config.threshold, layers, THRESHOLD, DEFAULT_THRESHOLD);
    hide Decides, HighestOrDefault;
    assert Say(layers, (l: Layer) => l.thinking) == Say(layers, THINKING);
    assert Say(layers, (l: Layer) => l.limit) == Say(layers, LIMIT);
    assert Say(layers, (l: Layer) => l.threshold) == Say(layers, THRESHOLD);
  }

  /** Layer `i` has a provider of this name. */
  predicate Names(layers: seq<Entry>, i: int, name: string) {
    0 <= i < |layers| && layers[i].layer.providers.Some? && name in layers[i].layer.providers.value
  }

  /** The provider is the entry of layer `i`, and no layer above that one names it. */
  ghost predicate ComesFrom(config: Config, layers: seq<Entry>, i: int, name: string)
    requires name in config.providers
  {
    && Names(layers, i, name) && name in config.providerSources
    && config.providers[name] == layers[i].layer.providers.value[name] && config.providerSources[name] == layers[i].source
    && forall j :: Names(layers, j, name) ==> !Above(layers[j].source, layers[i].source)
  }

  /** A provider is configured when some layer names it, and then it is the whole entry of the highest one that does, with that layer's name. */
  lemma ProvidersAreWhole(config: Config, layers: seq<Entry>, name: string)
    requires IsResolved(config, layers)
    ensures name in config.providers <==> exists i :: Names(layers, i, name)
    ensures name in config.providers ==> exists i :: ComesFrom(config, layers, i, name)
  {
    HighestLayerDecides(config, layers);
    assert ProviderIsHighest(config, layers, name);
    NamedSpeaks(layers, name);
    if name in config.providers {
      var e :| e in layers && e.source == config.providerSources[name] && Speaks(e, ProviderNamed(name), ANYONE)
               && ProviderNamed(name)(e.layer) == Some(config.providers[name]);
      var i :| 0 <= i < |layers| && layers[i] == e;
      assert Names(layers, i, name);
      assert forall j :: Names(layers, j, name) ==> layers[j] in layers;
      forall j | Names(layers, j, name) ensures !Above(layers[j].source, layers[i].source) {
        assert layers[j] in layers;
        LadderIsRank(layers[j].source, layers[i].source);
      }
      assert ComesFrom(config, layers, i, name);
    }
  }

  lemma NamedSpeaks(layers: seq<Entry>, name: string)
    ensures forall i :: 0 <= i < |layers| ==> layers[i] in layers && (Speaks(layers[i], ProviderNamed(name), ANYONE) <==> Names(layers, i, name))
  {
  }

  // ----- the mode -----

  /** The layers that did not come with the repository. */
  function WithoutProject(layers: seq<Entry>): seq<Entry> {
    if layers == [] then []
    else (if layers[0].source == Project then [] else [layers[0]]) + WithoutProject(layers[1..])
  }

  lemma {:induction false} WithoutProjectIs(layers: seq<Entry>)
    ensures forall e :: e in WithoutProject(layers) <==> e in layers && e.source != Project
  {
    if layers != [] {
      WithoutProjectIs(layers[1..]);
      assert layers == [layers[0]] + layers[1..];
    }
  }

  /** Some repository layer asks for this mode. */
  ghost predicate Asks(layers: seq<Entry>, mode: Mode) {
    exists e :: e in layers && e.source == Project && e.layer.mode == Some(mode)
  }

  lemma {:induction false} FromWithoutProject(layers: seq<Entry>, source: Source)
    ensures From(WithoutProject(layers), source) == if source == Project then [] else From(layers, source)
  {
    if layers != [] {
      FromWithoutProject(layers[1..], source);
      var (head, tail) := (if layers[0].source == Project then [] else [layers[0]], WithoutProject(layers[1..]));
      assert head == [] ==> head + tail == tail;
      assert head != [] ==> (head + tail)[0] == layers[0] && (head + tail)[1..] == tail;
    }
  }

  /** The operator's own result does not look at repository layers. */
  lemma OperatorIgnoresProject(layers: seq<Entry>)
    ensures OperatorMode(layers) == OperatorMode(WithoutProject(layers))
  {
    ByPrecedenceIs(layers);
    ByPrecedenceIs(WithoutProject(layers));
    FromWithoutProject(layers, Builtin);
    FromWithoutProject(layers, User);
    FromWithoutProject(layers, Project);
    FromWithoutProject(layers, Env);
    FromWithoutProject(layers, Cli);
    FromWithoutProject(layers, Session);
    hide ByPrecedence, From, WithoutProject;
    var low := From(layers, Builtin) + From(layers, User);
    var high := From(layers, Env) + From(layers, Cli) + From(layers, Session);
    assert low + [] + high == low + high;
    assert ByPrecedence(layers) == low + From(layers, Project) + high;
    assert ByPrecedence(WithoutProject(layers)) == low + high;
    SpokenSkips(low, From(layers, Project), high);
  }

  lemma ByPrecedenceIs(layers: seq<Entry>)
    ensures ByPrecedence(layers) == From(layers, Builtin) + From(layers, User) + From(layers, Project)
                                    + (From(layers, Env) + From(layers, Cli) + From(layers, Session))
  {
    assert ALL_SOURCES[1..] == [User, Project, Env, Cli, Session];
    FromFive(layers);
  }

  lemma FromFive(layers: seq<Entry>)
    ensures FromEach(layers, [User, Project, Env, Cli, Session])
            == From(layers, User) + (From(layers, Project) + (From(layers, Env) + (From(layers, Cli) + From(layers, Session))))
  {
    assert [User, Project, Env, Cli, Session][1..] == [Project, Env, Cli, Session];
    assert [Project, Env, Cli, Session][1..] == [Env, Cli, Session] && [Env, Cli, Session][1..] == [Cli, Session];
    assert [Cli, Session][1..] == [Session] && [Session][1..] == [];
    assert FromEach(layers, [Session]) == From(layers, Session);
    assert FromEach(layers, [Cli, Session]) == From(layers, Cli) + From(layers, Session);
    assert FromEach(layers, [Env, Cli, Session]) == From(layers, Env) + (From(layers, Cli) + From(layers, Session));
  }

  /** Repository entries in the middle are passed over. */
  lemma {:induction false} SpokenSkips(low: seq<Entry>, skipped: seq<Entry>, high: seq<Entry>)
    requires forall e :: e in skipped ==> e.source == Project
    ensures Spoken(low + skipped + high, MODE, OPERATOR) == Spoken(low + high, MODE, OPERATOR)
    decreases |skipped| + |high|
  {
    if high != [] {
      var n := |high| - 1;
      assert (low + skipped + high)[..|low + skipped + high| - 1] == low + skipped + high[..n];
      assert (low + high)[..|low + high| - 1] == low + high[..n];
      SpokenSkips(low, skipped, high[..n]);
    } else if skipped != [] {
      var n := |skipped| - 1;
      assert skipped[n] in skipped;
      assert low + skipped + high == low + skipped && low + skipped[..n] + high == low + skipped[..n];
      assert (low + skipped)[..|low + skipped| - 1] == low + skipped[..n];
      SpokenSkips(low, skipped[..n], high);
    } else {
      assert low + skipped + high == low + high;
    }
  }

  /** Without repository layers the mode is what the highest layer that sets it says, and auto when none does. */
  lemma OperatorDecidesAlone(config: Config, layers: seq<Entry>)
    requires IsResolved(config, layers) && forall e :: e in layers ==> e.source != Project
    ensures Decides(config.mode, Say(layers, (l: Layer) => l.mode), Auto)
  {
    ModeOnlyTightens(config, layers);
    NobodyAsks(config.mode, OperatorMode(layers), layers);
    SpokenIsHighest(layers, MODE, OPERATOR);
    OperatorSpeaks(layers);
    hide ByPrecedence, Spoken, Above, Source.Rank;
    var said := Say(layers, (l: Layer) => l.mode);
    forall i | 0 <= i < |said| ensures layers[i] in layers && (Above(said[i].source, config.mode.source) <==> said[i].source.Rank() > config.mode.source.Rank()) {
      LadderIsRank(said[i].source, config.mode.source);
    }
    if Spoken(ByPrecedence(layers), MODE, OPERATOR).Some? {
      var e :| e in layers && e.source == config.mode.source && Speaks(e, MODE, OPERATOR) && MODE(e.layer) == Some(config.mode.value);
      var i :| 0 <= i < |layers| && layers[i] == e;
      assert said[i] == Said(config.mode.source, Some(config.mode.value));
    }
  }

  lemma OperatorSpeaks(layers: seq<Entry>)
    requires forall e :: e in layers ==> e.source != Project
    ensures forall e :: e in layers ==> (Speaks(e, MODE, OPERATOR) <==> e.layer.mode.Some?)
  {
  }

  lemma NobodyAsks(final: Setting<Mode>, start: Setting<Mode>, layers: seq<Entry>)
    requires IsStrictest(final, start, layers) && forall e :: e in layers ==> e.source != Project
    ensures final == start
  {
  }

  /**
   The mode with repository layers is the stricter of the mode without them and
   what they ask for: never looser than either, and one of the two, attributed to
   the repository only when it is stricter.
   */
  lemma RepositoryOnlyTightens(config: Config, without: Config, layers: seq<Entry>)
    requires IsResolved(config, layers) && IsResolved(without, WithoutProject(layers))
    ensures !Stricter(without.mode.value, config.mode.value)
    ensures forall m :: Asks(layers, m) ==> !Stricter(m, config.mode.value)
    ensures config.mode == without.mode
            || (Asks(layers, config.mode.value) && config.mode.source == Project && Stricter(config.mode.value, without.mode.value))
  {
    WithoutProjectIs(layers);
    OperatorIgnoresProject(layers);
    ModeOnlyTightens(config, layers);
    ModeOnlyTightens(without, WithoutProject(layers));
    NobodyAsks(without.mode, OperatorMode(WithoutProject(layers)), WithoutProject(layers));
    OrderIsStrictness(without.mode.value, config.mode.value);
    OrderIsStrictness(config.mode.value, without.mode.value);
    hide OperatorMode, WithoutProject, IsResolved, Stricter;
    forall m | Asks(layers, m) ensures !Stricter(m, config.mode.value) {
      OrderIsStrictness(m, config.mode.value);
      var e :| e in layers && e.source == Project && e.layer.mode == Some(m);
      assert Requests(e, m);
    }
    if config.mode != without.mode {
      var e :| e in layers && Requests(e, config.mode.value) && e.source == config.mode.source;
      assert e.source == Project && e.layer.mode == Some(config.mode.value);
    }
  }

  /** A layer that comes with the repository, put anywhere among the others, never makes the mode looser. */
  lemma AddingProjectNeverLoosens(before: Config, after: Config, layers: seq<Entry>, i: nat, added: Entry)
    requires i <= |layers| && added.source == Project
    requires IsResolved(before, layers) && IsResolved(after, layers[..i] + [added] + layers[i..])
    ensures !Stricter(before.mode.value, after.mode.value)
  {
    var longer := layers[..i] + [added] + layers[i..];
    assert forall e :: e in layers ==> e in longer by {
      assert layers == layers[..i] + layers[i..];
    }
    SameWithout(layers, i, added);
    ModeOnlyTightens(before, layers);
    ModeOnlyTightens(after, longer);
    OperatorIgnoresProject(layers);
    OperatorIgnoresProject(longer);
    OrderIsStrictness(before.mode.value, after.mode.value);
    hide OperatorMode, WithoutProject, IsResolved, Stricter;
    if before.mode != OperatorMode(layers) {
      var e :| e in layers && Requests(e, before.mode.value) && e.source == before.mode.source;
      assert e in longer;
    }
  }

  lemma {:induction false} SameWithout(layers: seq<Entry>, i: nat, added: Entry)
    requires i <= |layers| && added.source == Project
    ensures WithoutProject(layers[..i] + [added] + layers[i..]) == WithoutProject(layers)
    decreases i
  {
    var longer := layers[..i] + [added] + layers[i..];
    if i == 0 {
      assert longer[1..] == layers;
      assert [] + WithoutProject(layers) == WithoutProject(layers);
    } else {
      assert longer[1..] == layers[1..][..i - 1] + [added] + layers[1..][i - 1..];
      SameWithout(layers[1..], i - 1, added);
    }
  }
}

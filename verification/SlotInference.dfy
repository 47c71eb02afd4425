/** Which mode a slot's environment file stands for (go/internal/engine/sysconfig.go:116-141). */
module SlotInference {
  import opened Wrappers

  datatype Service = Service(alias: string, model: string, portRole: string)

  /** The kind is "service" for a mode that is no inference mode, else "". */
  datatype Mode = Mode(services: seq<Service>, kind: string)

  /** Slot names with their units, and the configured modes by name. */
  datatype Config = Config(slots: map<string, string>, modes: map<string, Mode>)

  /** The two keys of a slot's environment file that matter here; "" when absent. */
  datatype EnvFile = EnvFile(alias: string, modelPath: string)

  predicate HasSuffix(s: string, suffix: string)
  {
    |s| >= |suffix| && s[|s| - |suffix|..] == suffix
  }

  predicate MatchesAlias(cfg: Config, env: EnvFile, name: string)
  {
    env.alias != "" && name in cfg.modes && exists svc | svc in cfg.modes[name].services :: svc.alias == env.alias
  }

  predicate MatchesPath(cfg: Config, env: EnvFile, name: string)
  {
    env.modelPath != "" && name in cfg.modes &&
    exists svc | svc in cfg.modes[name].services :: svc.model != "" && HasSuffix(env.modelPath, svc.model)
  }

  /** The results the search may give: Go visits a map in any order, so several modes may be found, but
      a model path never wins over an alias. */
  ghost predicate MayInfer(cfg: Config, env: EnvFile, r: string)
  {
    || MatchesAlias(cfg, env, r)
    || ((forall name :: !MatchesAlias(cfg, env, name)) &&
        (MatchesPath(cfg, env, r) || (r == "" && forall name :: !MatchesPath(cfg, env, name))))
  }

  /** Both passes visit the modes in an arbitrary order. */
  method InferSlotMode(cfg: Config, env: EnvFile) returns (r: string)
    ensures MayInfer(cfg, env, r)
  {
    if env.alias == "" && env.modelPath == "" {
      return "";
    }
    if env.alias != "" {
      var left := cfg.modes.Keys;
      while left != {}
        invariant left <= cfg.modes.Keys
        invariant forall name | name in cfg.modes && name !in left :: !MatchesAlias(cfg, env, name)
        decreases |left|
      {
        ghost var some := Member(left);
        var name :| name in left;
        var found := HasAlias(cfg.modes[name].services, env.alias);
        if found {
          return name;
        }
        left := left - {name};
      }
    }
    if env.modelPath != "" {
      var left := cfg.modes.Keys;
      while left != {}
        invariant left <= cfg.modes.Keys
        invariant forall name | name in cfg.modes && name !in left :: !MatchesPath(cfg, env, name)
        decreases |left|
      {
        ghost var some := Member(left);
        var name :| name in left;
        var found := HasModel(cfg.modes[name].services, env.modelPath);
        if found {
          return name;
        }
        left := left - {name};
      }
    }
    return "";
  }

  method HasAlias(services: seq<Service>, alias: string) returns (found: bool)
    ensures found <==> exists svc | svc in services :: svc.alias == alias
  {
    for i := 0 to |services|
      invariant forall svc | svc in services[..i] :: svc.alias != alias
    {
      if services[i].alias == alias {
        return true;
      }
    }
    assert services[..|services|] == services;
    return false;
  }

  method HasModel(services: seq<Service>, path: string) returns (found: bool)
    ensures found <==> exists svc | svc in services :: svc.model != "" && HasSuffix(path, svc.model)
  {
    for i := 0 to |services|
      invariant forall svc | svc in services[..i] :: !(svc.model != "" && HasSuffix(path, svc.model))
    {
      if services[i].model != "" && HasSuffix(path, services[i].model) {
        return true;
      }
    }
    assert services[..|services|] == services;
    return false;
  }

  /** Every alias is set and belongs to one mode, as the catalog builds them. */
  ghost predicate AliasesUnique(cfg: Config)
  {
    && "" !in cfg.modes
    && (forall name, svc | name in cfg.modes && svc in cfg.modes[name].services :: svc.alias != "")
    && forall a, b, svc, svc' | a in cfg.modes && b in cfg.modes && svc in cfg.modes[a].services &&
                                svc' in cfg.modes[b].services && svc.alias == svc'.alias :: a == b
  }

  /** A file written for a mode is read back as that mode, however many modes share its model file. */
  lemma InferenceIsExact(cfg: Config, name: string, svc: Service, modelPath: string, r: string)
    requires AliasesUnique(cfg) && name in cfg.modes && svc in cfg.modes[name].services
    ensures MayInfer(cfg, EnvFile(svc.alias, modelPath), r) <==> r == name
  {
    assert MatchesAlias(cfg, EnvFile(svc.alias, modelPath), name);
  }

  /** The search always has a result. */
  lemma SomeInference(cfg: Config, env: EnvFile) returns (r: string)
    ensures MayInfer(cfg, env, r)
  {
    if name :| MatchesAlias(cfg, env, name) {
      r := name;
    } else if name :| MatchesPath(cfg, env, name) {
      r := name;
    } else {
      r := "";
    }
  }
}

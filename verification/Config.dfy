/** The broker configuration: defaults, checks, and the validation of the store's topic filter. */
module Config {
  import opened Levels
  import opened Wrappers
  import opened TopicFilter
  import opened FilterGrammar

  datatype FilterError = EmptyFilter | HashNotFinal | PlusNotLevel

  /** Which complaint, if any, the level at index i draws; "#" is looked at before "+". */
  predicate HashMisplaced(levels: seq<string>, i: nat)
    requires i < |levels|
  {
    '#' in levels[i] && (levels[i] != HASH || i != |levels| - 1)
  }

  predicate PlusMisplaced(level: string) {
    '+' in level && level != PLUS
  }

  predicate LevelsAllowedBelow(levels: seq<string>, n: nat)
    requires n <= |levels|
  {
    forall j | 0 <= j < n :: LevelAllowed(levels, j)
  }

  /** What is wrong with the first bad level of a filter. */
  predicate Complains(filter: string, error: FilterError) {
    var levels := Split(filter);
    match error
    case EmptyFilter => filter == ""
    case HashNotFinal => filter != "" && exists i | 0 <= i < |levels| ::
        LevelsAllowedBelow(levels, i) && HashMisplaced(levels, i)
    case PlusNotLevel => filter != "" && exists i | 0 <= i < |levels| ::
        LevelsAllowedBelow(levels, i) && !HashMisplaced(levels, i) && PlusMisplaced(levels[i])
  }

  lemma BadLevel(levels: seq<string>, i: nat)
    requires i < |levels|
    ensures LevelAllowed(levels, i) <==> !HashMisplaced(levels, i) && !PlusMisplaced(levels[i])
  {
  }

  /** A filter has at most one complaint. */
  lemma OneComplaint(filter: string, error: FilterError, other: FilterError)
    requires Complains(filter, error) && Complains(filter, other)
    ensures error == other
  {
    var levels := Split(filter);
    forall i, j | 0 <= i < |levels| && 0 <= j < |levels| && LevelsAllowedBelow(levels, i) && LevelsAllowedBelow(levels, j)
      ensures LevelAllowed(levels, i) || LevelAllowed(levels, j) || i == j
    {
    }
    forall i | 0 <= i < |levels|
      ensures LevelAllowed(levels, i) <==> !HashMisplaced(levels, i) && !PlusMisplaced(levels[i])
    {
      BadLevel(levels, i);
    }
  }

  /** Accepts exactly the grammar of section 4.7.1; otherwise reports the first bad level. */
  method ValidateFilter(filter: string) returns (result: Outcome<FilterError>)
    ensures result.Pass? <==> WellFormed(filter)
    ensures result.Fail? ==> Complains(filter, result.error)
  {
    if filter == "" {
      return Fail(EmptyFilter);
    }
    GrammarByLevels(filter);
    var parts := Split(filter);
    for i := 0 to |parts|
      invariant LevelsAllowedBelow(parts, i)
    {
      var part := parts[i];
      if '#' in part && (part != HASH || i != |parts| - 1) {
        assert !LevelAllowed(parts, i);
        return Fail(HashNotFinal);
      }
      if '+' in part && part != PLUS {
        assert !LevelAllowed(parts, i);
        return Fail(PlusNotLevel);
      }
    }
    return Pass;
  }

  // ---------- Loading ----------

  class ListenerConfig {
    var enabled: Option<bool>
    var address: string
    var certFile: string
    var keyFile: string

    constructor (enabled: Option<bool>, address: string, certFile: string, keyFile: string)
      ensures this.enabled == enabled && this.address == address
      ensures this.certFile == certFile && this.keyFile == keyFile
    {
      this.enabled, this.address, this.certFile, this.keyFile := enabled, address, certFile, keyFile;
    }

    predicate IsEnabled()
      reads this
    {
      enabled == Some(true)
    }

    predicate HasCertificate()
      reads this
    {
      certFile != "" && keyFile != ""
    }
  }

  class BrokerConfig {
    const tcp: ListenerConfig
    const tls: ListenerConfig
    const webSocket: ListenerConfig
    const wss: ListenerConfig
    var database: string
    var storeEnabled: Option<bool>
    var storeTopic: string
    var webEnabled: Option<bool>
    var webAddress: string

    /** The four listeners are parts of one struct, so they are distinct. */
    constructor (tcp: ListenerConfig, tls: ListenerConfig, webSocket: ListenerConfig, wss: ListenerConfig,
                 database: string, storeEnabled: Option<bool>, storeTopic: string,
                 webEnabled: Option<bool>, webAddress: string)
      requires tcp != tls && tcp != webSocket && tcp != wss && tls != webSocket && tls != wss && webSocket != wss
      ensures Separate()
      ensures this.tcp == tcp && this.tls == tls && this.webSocket == webSocket && this.wss == wss
      ensures this.database == database && this.storeEnabled == storeEnabled && this.storeTopic == storeTopic
      ensures this.webEnabled == webEnabled && this.webAddress == webAddress
    {
      this.tcp, this.tls, this.webSocket, this.wss := tcp, tls, webSocket, wss;
      this.database, this.storeEnabled, this.storeTopic := database, storeEnabled, storeTopic;
      this.webEnabled, this.webAddress := webEnabled, webAddress;
    }

    predicate Separate() {
      tcp != tls && tcp != webSocket && tcp != wss && tls != webSocket && tls != wss && webSocket != wss
    }

    ghost function Listeners(): set<ListenerConfig> {
      {tcp, tls, webSocket, wss}
    }

    /** What the rest of the broker relies on after loading. */
    predicate Loaded()
      reads this, tcp, tls, webSocket, wss
    {
      && (|| tcp.enabled == Some(true) || tls.enabled == Some(true)
          || webSocket.enabled == Some(true) || wss.enabled == Some(true))
      && (tls.enabled == Some(true) ==> tls.certFile != "" && tls.keyFile != "")
      && (wss.enabled == Some(true) ==> wss.certFile != "" && wss.keyFile != "")
      && (storeEnabled == Some(true) ==> WellFormed(storeTopic))
      && storeEnabled.Some? && webEnabled.Some?
      && database != "" && storeTopic != "" && webAddress != ""
    }
  }

  method ApplyListenerDefaults(listener: ListenerConfig, enabled: bool, address: string)
    modifies listener
    ensures listener.enabled == (if old(listener.enabled) == None then Some(enabled) else old(listener.enabled))
    ensures listener.address == (if old(listener.address) == "" then address else old(listener.address))
    ensures listener.certFile == old(listener.certFile) && listener.keyFile == old(listener.keyFile)
  {
    if listener.enabled == None {
      listener.enabled := Some(enabled);
    }
    if listener.address == "" {
      listener.address := address;
    }
  }

  datatype LoadError = NoListener | MissingCertificate | BadStoreTopic(cause: FilterError)

  /** The part of loading after the YAML text has been decoded into `cfg`. A load fails exactly when the
      defaulted configuration lacks a listener, a certificate or a valid filter for an enabled store. */
  method Load(cfg: BrokerConfig) returns (result: Outcome<LoadError>)
    requires cfg.Separate()
    modifies cfg, cfg.Listeners()
    ensures result.Pass? ==> cfg.Loaded()
    ensures result == Fail(NoListener) <==>
            old(cfg.tcp.enabled != None && cfg.tcp.enabled != Some(true) && cfg.tls.enabled != Some(true)
                && cfg.webSocket.enabled != Some(true) && cfg.wss.enabled != Some(true))
    ensures result == Fail(MissingCertificate) <==>
            old((cfg.tls.enabled == Some(true) && (cfg.tls.certFile == "" || cfg.tls.keyFile == ""))
                || (cfg.wss.enabled == Some(true) && (cfg.wss.certFile == "" || cfg.wss.keyFile == "")))
    ensures result.Fail? && result.error.BadStoreTopic? ==>
              && old(cfg.storeEnabled == None || cfg.storeEnabled == Some(true))
              && old(cfg.storeTopic) != "" && !WellFormed(old(cfg.storeTopic))
              && Complains(old(cfg.storeTopic), result.error.cause)
    ensures result.Pass? ==>
              || old(cfg.storeEnabled != None && cfg.storeEnabled != Some(true))
              || old(cfg.storeTopic) == "" || WellFormed(old(cfg.storeTopic))
    ensures cfg.tcp.certFile == old(cfg.tcp.certFile) && cfg.tcp.keyFile == old(cfg.tcp.keyFile)
    ensures cfg.tls.certFile == old(cfg.tls.certFile) && cfg.tls.keyFile == old(cfg.tls.keyFile)
    ensures cfg.webSocket.certFile == old(cfg.webSocket.certFile) && cfg.webSocket.keyFile == old(cfg.webSocket.keyFile)
    ensures cfg.wss.certFile == old(cfg.wss.certFile) && cfg.wss.keyFile == old(cfg.wss.keyFile)
    ensures result.Pass? ==>
              && cfg.tcp.enabled == (if old(cfg.tcp.enabled) == None then Some(true) else old(cfg.tcp.enabled))
              && cfg.tcp.address == (if old(cfg.tcp.address) == "" then ":1883" else old(cfg.tcp.address))
              && cfg.tls.enabled == (if old(cfg.tls.enabled) == None then Some(false) else old(cfg.tls.enabled))
              && cfg.tls.address == (if old(cfg.tls.address) == "" then ":8883" else old(cfg.tls.address))
              && cfg.webSocket.enabled == (if old(cfg.webSocket.enabled) == None then Some(false) else old(cfg.webSocket.enabled))
              && cfg.webSocket.address == (if old(cfg.webSocket.address) == "" then ":8083" else old(cfg.webSocket.address))
              && cfg.wss.enabled == (if old(cfg.wss.enabled) == None then Some(false) else old(cfg.wss.enabled))
              && cfg.wss.address == (if old(cfg.wss.address) == "" then ":8084" else old(cfg.wss.address))
              && cfg.database == (if old(cfg.database) == "" then "mqtt.db" else old(cfg.database))
              && cfg.storeEnabled == (if old(cfg.storeEnabled) == None then Some(true) else old(cfg.storeEnabled))
              && cfg.storeTopic == (if old(cfg.storeTopic) == "" then "#" else old(cfg.storeTopic))
              && cfg.webEnabled == (if old(cfg.webEnabled) == None then Some(true) else old(cfg.webEnabled))
              && cfg.webAddress == (if old(cfg.webAddress) == "" then "127.0.0.1:8080" else old(cfg.webAddress))
  {
    ApplyAllListenerDefaults(cfg);
    result := CheckListeners(cfg);
    if result.Fail? {
      return;
    }
    ApplyServiceDefaults(cfg);
    DefaultTopicWellFormed();
    result := CheckStoreTopic(cfg);
  }

  method CheckStoreTopic(cfg: BrokerConfig) returns (result: Outcome<LoadError>)
    ensures result.Pass? <==> cfg.storeEnabled == Some(true) ==> WellFormed(cfg.storeTopic)
    ensures result.Fail? ==> result.error.BadStoreTopic? && Complains(cfg.storeTopic, result.error.cause)
  {
    if cfg.storeEnabled == Some(true) {
      var check := ValidateFilter(cfg.storeTopic);
      if check.Fail? {
        return Fail(BadStoreTopic(check.error));
      }
    }
    return Pass;
  }

  lemma DefaultTopicWellFormed()
    ensures WellFormed("#")
  {
  }

  method ApplyAllListenerDefaults(cfg: BrokerConfig)
    requires cfg.Separate()
    modifies cfg.Listeners()
    ensures cfg.tcp.enabled == (if old(cfg.tcp.enabled) == None then Some(true) else old(cfg.tcp.enabled))
    ensures cfg.tcp.address == (if old(cfg.tcp.address) == "" then ":1883" else old(cfg.tcp.address))
    ensures cfg.tcp.certFile == old(cfg.tcp.certFile) && cfg.tcp.keyFile == old(cfg.tcp.keyFile)
    ensures cfg.tls.enabled == (if old(cfg.tls.enabled) == None then Some(false) else old(cfg.tls.enabled))
    ensures cfg.tls.address == (if old(cfg.tls.address) == "" then ":8883" else old(cfg.tls.address))
    ensures cfg.tls.certFile == old(cfg.tls.certFile) && cfg.tls.keyFile == old(cfg.tls.keyFile)
    ensures cfg.webSocket.enabled ==
            (if old(cfg.webSocket.enabled) == None then Some(false) else old(cfg.webSocket.enabled))
    ensures cfg.webSocket.address == (if old(cfg.webSocket.address) == "" then ":8083" else old(cfg.webSocket.address))
    ensures cfg.webSocket.certFile == old(cfg.webSocket.certFile) && cfg.webSocket.keyFile == old(cfg.webSocket.keyFile)
    ensures cfg.wss.enabled == (if old(cfg.wss.enabled) == None then Some(false) else old(cfg.wss.enabled))
    ensures cfg.wss.address == (if old(cfg.wss.address) == "" then ":8084" else old(cfg.wss.address))
    ensures cfg.wss.certFile == old(cfg.wss.certFile) && cfg.wss.keyFile == old(cfg.wss.keyFile)
  {
    ApplyListenerDefaults(cfg.tcp, true, ":1883");
    ApplyListenerDefaults(cfg.tls, false, ":8883");
    ApplyListenerDefaults(cfg.webSocket, false, ":8083");
    ApplyListenerDefaults(cfg.wss, false, ":8084");
  }

  method CheckListeners(cfg: BrokerConfig) returns (result: Outcome<LoadError>)
    requires cfg.Separate()
    ensures result == Fail(NoListener) <==>
            && cfg.tcp.enabled != Some(true) && cfg.tls.enabled != Some(true)
            && cfg.webSocket.enabled != Some(true) && cfg.wss.enabled != Some(true)
    ensures result == Fail(MissingCertificate) <==>
            || (cfg.tls.enabled == Some(true) && (cfg.tls.certFile == "" || cfg.tls.keyFile == ""))
            || (cfg.wss.enabled == Some(true) && (cfg.wss.certFile == "" || cfg.wss.keyFile == ""))
    ensures result.Fail? ==> !result.error.BadStoreTopic?
  {
    if !cfg.tcp.IsEnabled() && !cfg.tls.IsEnabled() && !cfg.webSocket.IsEnabled() && !cfg.wss.IsEnabled() {
      return Fail(NoListener);
    }
    if cfg.tls.IsEnabled() && !cfg.tls.HasCertificate() {
      return Fail(MissingCertificate);
    }
    if cfg.wss.IsEnabled() && !cfg.wss.HasCertificate() {
      return Fail(MissingCertificate);
    }
    return Pass;
  }

  method ApplyServiceDefaults(cfg: BrokerConfig)
    modifies cfg
    ensures cfg.database == (if old(cfg.database) == "" then "mqtt.db" else old(cfg.database))
    ensures cfg.storeEnabled == (if old(cfg.storeEnabled) == None then Some(true) else old(cfg.storeEnabled))
    ensures cfg.storeTopic == (if old(cfg.storeTopic) == "" then "#" else old(cfg.storeTopic))
    ensures cfg.webEnabled == (if old(cfg.webEnabled) == None then Some(true) else old(cfg.webEnabled))
    ensures cfg.webAddress == (if old(cfg.webAddress) == "" then "127.0.0.1:8080" else old(cfg.webAddress))
  {
    if cfg.database == "" {
      cfg.database := "mqtt.db";
    }
    if cfg.storeEnabled == None {
      cfg.storeEnabled := Some(true);
    }
    if cfg.storeTopic == "" {
      cfg.storeTopic := "#";
    }
    if cfg.webEnabled == None {
      cfg.webEnabled := Some(true);
    }
    if cfg.webAddress == "" {
      cfg.webAddress := "127.0.0.1:8080";
    }
  }
}

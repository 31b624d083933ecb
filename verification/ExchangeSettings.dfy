/** The token-exchange settings, and the start-up check on them. */
module ExchangeSettings {
  import opened Int64

  datatype Config = Config(
    tokenURL: string, clientID: string, clientSecret: string, audience: string, cacheTTLCap: Word)

  /** Config.JWTExchangeEnabled: all four required settings are there. */
  predicate Enabled(cfg: Config) {
    cfg.tokenURL != "" && cfg.clientID != "" && cfg.clientSecret != "" && cfg.audience != ""
  }

  datatype Setting = TokenURL | ClientID | ClientSecret | Audience

  function Value(cfg: Config, s: Setting): string {
    match s
    case TokenURL => cfg.tokenURL
    case ClientID => cfg.clientID
    case ClientSecret => cfg.clientSecret
    case Audience => cfg.audience
  }

  /** validateExchangeConfig: all four settings or none. */
  method ValidateExchangeConfig(cfg: Config) returns (ok: bool)
    ensures ok <==>
            || (cfg.tokenURL != "" && cfg.clientID != "" && cfg.clientSecret != "" && cfg.audience != "")
            || (cfg.tokenURL == "" && cfg.clientID == "" && cfg.clientSecret == "" && cfg.audience == "")
    ensures ok ==> (Enabled(cfg) <==> cfg.tokenURL != "")
  {
    var required := {TokenURL, ClientID, ClientSecret, Audience};
    ghost var all := required;
    var setNames, missingNames: set<Setting> := {}, {};
    while required != {}
      invariant setNames + missingNames + required == all
      invariant forall n | n in setNames :: Value(cfg, n) != ""
      invariant forall n | n in missingNames :: Value(cfg, n) == ""
      decreases required
    {
      var name :| name in required;
      assert all == setNames + missingNames + {name} + (required - {name});
      required := required - {name};
      if Value(cfg, name) != "" {
        setNames := setNames + {name};
      } else {
        missingNames := missingNames + {name};
      }
    }
    ok := !(setNames != {} && missingNames != {});
    assert setNames + missingNames == all;
    AllOrNothing(cfg, setNames, missingNames);
  }

  lemma AllOrNothing(cfg: Config, setNames: set<Setting>, missingNames: set<Setting>)
    requires forall n :: n in setNames <==> Value(cfg, n) != ""
    requires forall n :: n in missingNames <==> Value(cfg, n) == ""
    ensures setNames == {} <==> cfg.tokenURL == "" && cfg.clientID == "" && cfg.clientSecret == "" && cfg.audience == ""
    ensures missingNames == {} <==> Enabled(cfg)
  {
    if setNames == {} {
      assert Value(cfg, TokenURL) == "" && Value(cfg, ClientID) == "";
      assert Value(cfg, ClientSecret) == "" && Value(cfg, Audience) == "";
    }
    if cfg.tokenURL == "" && cfg.clientID == "" && cfg.clientSecret == "" && cfg.audience == "" {
      forall s ensures Value(cfg, s) == "" {
      }
    }
    if missingNames == {} {
      assert Value(cfg, TokenURL) != "" && Value(cfg, ClientID) != "";
      assert Value(cfg, ClientSecret) != "" && Value(cfg, Audience) != "";
    }
  }
}

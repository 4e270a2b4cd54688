/** The rule a request is limited by, and the decision it gets. */
module Config {
  import opened Basics

  /** `config.Rule`; `pattern` is its `Match` field. */
  datatype Rule = Rule(
    ruleId: string,
    pattern: string,
    methods: seq<string>,
    client: string,
    priority: int,
    algo: string,
    windowMs: int,
    limit: int,
    burst: int,
    dims: seq<string>,
    perHour: int,
    perDay: int,
    enabled: bool)

  /** `types.Decision`. */
  datatype Decision = Decision(
    allowed: bool,
    remaining: int,
    retryAfterMs: int,
    reason: string,
    err: Option<string>)

  function Refusal(reason: string, err: Option<string>): Decision {
    Decision(false, 0, 0, reason, err)
  }

  function Grant(reason: string): Decision {
    Decision(true, 0, 0, reason, None)
  }
}

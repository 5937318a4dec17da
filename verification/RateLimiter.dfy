/** The per-consumer limiter: its configuration, its lazily filled map of buckets, and the
    request handler that answers 429 with a Retry-After header.
 */
module RateLimiter {
  import opened TokenBucket
  import opened Options

  datatype Config = Config(defaultRpm: nat, defaultBurst: nat, consumers: map<string, Limits>)

  /** Zero defaults stand for 60 requests per minute and a burst of 10. */
  function Normalised(cfg: Config): Config {
    cfg.(defaultRpm := if cfg.defaultRpm == 0 then 60 else cfg.defaultRpm,
         defaultBurst := if cfg.defaultBurst == 0 then 10 else cfg.defaultBurst)
  }

  function LimitsFor(cfg: Config, consumer: string): Limits {
    if consumer in cfg.consumers then cfg.consumers[consumer]
    else Limits(cfg.defaultRpm, cfg.defaultBurst)
  }

  /** Without the two functions: a consumer listed in the configuration has its own limits, any
      other the defaults, where zero stands for 60 and 10. */
  lemma LimitsAsConfigured(config: Config, c: string)
    ensures c in config.consumers ==> LimitsFor(Normalised(config), c) == config.consumers[c]
    ensures c !in config.consumers ==>
              LimitsFor(Normalised(config), c)
              == Limits(if config.defaultRpm == 0 then 60 else config.defaultRpm,
                        if config.defaultBurst == 0 then 10 else config.defaultBurst)
  {
  }

  datatype Answer =
    | Forwarded
    | TooManyRequests(retryAfter: Option<int>)

  function AnswerFor(d: Decision): Answer {
    match d
    case Allowed => Forwarded
    case Denied(None) => TooManyRequests(None)
    case Denied(Some(wait)) => TooManyRequests(Some(RetrySeconds(wait)))
  }

  /** A bucket object: it keeps the limits it was created with. */
  datatype Cell = Cell(limits: Limits, level: Level)

  /** The bucket a request is served from: its consumer's own, or on first sight a full one. */
  function CellFor(cfg: Config, cells: map<string, Cell>, consumer: string, now: int): Cell {
    if consumer in cells then cells[consumer]
    else Cell(LimitsFor(cfg, consumer), Full(LimitsFor(cfg, consumer), now))
  }

  lemma FirstCell(cfg: Config, cells: map<string, Cell>, consumer: string, now: int)
    ensures consumer !in cells ==>
              var cell := CellFor(cfg, cells, consumer, now);
              && cell.level == Full(cell.limits, now)
              && cell.limits == if consumer in cfg.consumers then cfg.consumers[consumer]
                                else Limits(cfg.defaultRpm, cfg.defaultBurst)
  {
  }

  class Limiter {
    var cfg: Config
    var buckets: map<string, Bucket>

    ghost predicate Valid()
      reads this, buckets.Values
    {
      && (forall c :: c in buckets ==> buckets[c].Valid())
      && (forall c, d :: c in buckets && d in buckets && c != d ==> buckets[c] != buckets[d])
    }

    ghost function Cells(): map<string, Cell>
      reads this, buckets.Values
    {
      map c | c in buckets :: Cell(buckets[c].limits, buckets[c].State())
    }

    constructor (config: Config)
      ensures Valid() && cfg == Normalised(config) && Cells() == map[]
      ensures cfg.consumers == config.consumers
      ensures cfg.defaultRpm == (if config.defaultRpm == 0 then 60 else config.defaultRpm)
      ensures cfg.defaultBurst == (if config.defaultBurst == 0 then 10 else config.defaultBurst)
    {
      cfg := Normalised(config);
      buckets := map[];
    }

    method Update(config: Config)
      modifies this
      ensures Valid() && cfg == Normalised(config) && Cells() == map[]
      ensures cfg.consumers == config.consumers
      ensures cfg.defaultRpm == (if config.defaultRpm == 0 then 60 else config.defaultRpm)
      ensures cfg.defaultBurst == (if config.defaultBurst == 0 then 10 else config.defaultBurst)
    {
      cfg := Normalised(config);
      buckets := map[];
    }

    /** The read-locked half of getBucket: the bucket if there is one, and the configuration. */
    method Lookup(consumer: string) returns (b: Bucket?, snapshot: Config)
      requires Valid()
      ensures snapshot == cfg
      ensures b == if consumer in buckets then buckets[consumer] else null
    {
      b := if consumer in buckets then buckets[consumer] else null;
      snapshot := cfg;
    }

    /** The write-locked half: look again, and only then create a full bucket with the limits
        of the configuration read earlier, which an update may have replaced meanwhile. */
    method Insert(consumer: string, snapshot: Config, now: int) returns (b: Bucket)
      requires Valid()
      modifies this`buckets
      ensures Valid() && consumer in buckets && b == buckets[consumer]
      ensures consumer in old(buckets) ==> buckets == old(buckets)
      ensures consumer !in old(buckets) ==>
                && buckets == old(buckets)[consumer := b] && fresh(b)
                && b.limits == LimitsFor(snapshot, consumer) && b.State() == Full(b.limits, now)
                && b.limits == if consumer in snapshot.consumers then snapshot.consumers[consumer]
                               else Limits(snapshot.defaultRpm, snapshot.defaultBurst)
    {
      var rpm, burst := snapshot.defaultRpm, snapshot.defaultBurst;
      if consumer in snapshot.consumers {
        rpm, burst := snapshot.consumers[consumer].rpm, snapshot.consumers[consumer].burst;
      }
      if consumer in buckets {
        return buckets[consumer];
      }
      b := new Bucket(rpm, burst, now);
      buckets := buckets[consumer := b];
    }

    /** Both halves with nothing in between; `RateLimiterRuns` covers every interleaving. */
    method GetBucket(consumer: string, now: int) returns (b: Bucket)
      requires Valid()
      modifies this`buckets
      ensures Valid() && consumer in buckets && b == buckets[consumer]
      ensures consumer in old(buckets) ==> buckets == old(buckets)
      ensures consumer !in old(buckets) ==> buckets == old(buckets)[consumer := b] && fresh(b)
      ensures
        var cell := CellFor(cfg, old(Cells()), consumer, now);
        Cells() == old(Cells())[consumer := cell] && Cell(b.limits, b.State()) == cell
    {
      var found, snapshot := Lookup(consumer);
      if found != null {
        return found;
      }
      b := Insert(consumer, snapshot, now);
    }

    /** The header value is the wait in whole seconds, plus one. */
    method Respond(d: Decision) returns (answer: Answer)
      ensures answer == AnswerFor(d)
      ensures answer == Forwarded <==> d == Allowed
      ensures d.Denied? && d.wait.Some? ==> answer == TooManyRequests(Some(d.wait.value / 1_000_000_000 + 1))
    {
      if d.Allowed? {
        return Forwarded;
      }
      if d.wait.None? {
        return TooManyRequests(None);
      }
      var secs := d.wait.value / NANOS_PER_SECOND + 1;
      return TooManyRequests(Some(secs));
    }

    method TakeFrom(consumer: string, now: int) returns (d: Decision)
      requires Valid() && consumer in buckets
      modifies buckets[consumer]
      ensures Valid()
      ensures
        var limits := old(buckets[consumer].limits);
        var (after, decision) := TakeStep(limits, old(buckets[consumer].State()), now);
        Cells() == old(Cells())[consumer := Cell(limits, after)] && d == decision
    {
      ghost var others := map c | c in buckets && c != consumer :: Cell(buckets[c].limits, buckets[c].State());
      d := buckets[consumer].Take(now);
      assert Cells() == others[consumer := Cell(buckets[consumer].limits, buckets[consumer].State())];
    }

    /** One request: exactly the consumer's own bucket moves, by one take on it. */
    method Handle(consumer: string, now: int) returns (answer: Answer)
      requires Valid()
      modifies this`buckets, buckets.Values
      ensures Valid() && fresh(buckets.Values - old(buckets.Values))
      ensures
        var cell := CellFor(cfg, old(Cells()), consumer, now);
        var (after, decision) := TakeStep(cell.limits, cell.level, now);
        && Cells() == old(Cells())[consumer := Cell(cell.limits, after)]
        && answer == AnswerFor(decision) && (answer == Forwarded <==> decision == Allowed)
        && (consumer !in old(Cells()) ==>
              && cell.level == Full(cell.limits, now)
              && cell.limits == if consumer in cfg.consumers then cfg.consumers[consumer]
                                else Limits(cfg.defaultRpm, cfg.defaultBurst))
    {
      FirstCell(cfg, Cells(), consumer, now);
      hide *;
      var b := GetBucket(consumer, now);
      var d := TakeFrom(consumer, now);
      answer := Respond(d);
    }
  }
}

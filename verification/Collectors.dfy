/** The deduplicating part of `collect_project` in `services/collector_service/app/main.py`. */
module Collectors {
  import opened ExpiringStores
  import opened CheckThenSets

  datatype Mention = Mention(sourceId: string, text: string)

  function DedupKey(platform: string, m: Mention): string {
    "dedup:" + platform + ":" + m.sourceId
  }

  function Keys(platform: string, ms: seq<Mention>): seq<string> {
    seq(|ms|, i requires 0 <= i < |ms| => DedupKey(platform, ms[i]))
  }

  ghost function CheckedKeys(es: seq<Event>): seq<string> {
    if es == [] then []
    else CheckedKeys(es[..|es| - 1]) + (if es[|es| - 1].Check? then [es[|es| - 1].key] else [])
  }

  ghost function WrittenKeys(ws: seq<World>, es: seq<Event>): seq<string>
    requires |ws| == |es| + 1
  {
    if es == [] then []
    else
      var n := |es| - 1;
      var e := es[n];
      WrittenKeys(ws[..n + 1], es[..n]) + (if e.Write? && e.task in ws[n].pending then [ws[n].pending[e.task]] else [])
  }

  lemma LogSnoc(ws: seq<World>, es: seq<Event>, w: World, e: Event)
    requires |ws| == |es| + 1
    ensures CheckedKeys(es + [e]) == CheckedKeys(es) + (if e.Check? then [e.key] else [])
    ensures WrittenKeys(ws + [w], es + [e]) ==
            WrittenKeys(ws, es) + (if e.Write? && e.task in ws[|es|].pending then [ws[|es|].pending[e.task]] else [])
  {
    assert (es + [e])[..|es|] == es && (ws + [w])[..|es| + 1] == ws;
  }

  /** What becomes of the first `n` mentions, given the keys: the events, and the keys
      afterwards. */
  function Deduplicated(cells: Store<string>, ttl: int, platform: string, ms: seq<Mention>, clock: nat -> Time, n: nat): (seq<Mention>, Store<string>)
    requires n <= |ms|
  {
    if n == 0 then ([], cells)
    else
      var m := ms[n - 1];
      var (events, before) := Deduplicated(cells, ttl, platform, ms, clock, n - 1);
      var key := DedupKey(platform, m);
      if Live(before, key, clock(2 * n)) then (events, before)
      else (events + [m], SetEx(before, key, "1", ttl, clock(2 * n + 1)))
  }

  class Collector {
    const dedupTtl: int

    constructor (dedupTtl: int)
      ensures this.dedupTtl == dedupTtl
    {
      this.dedupTtl := dedupTtl;
    }

    /** Whether a mention with this key becomes an event; the commands are issued at `t0` and
        `t1`. Without Redis it always does. */
    method Admit(redis: Redis<string>, up: bool, key: string, t0: Time, t1: Time) returns (emitted: bool)
      modifies redis
      ensures emitted <==> !up || !Live(old(redis.cells), key, t0)
      ensures redis.cells == if up && emitted then SetEx(old(redis.cells), key, "1", dedupTtl, t1) else old(redis.cells)
    {
      if up {
        if Live(redis.cells, key, t0) {
          return false;
        }
        redis.Set(key, "1", dedupTtl, t1);
      }
      return true;
    }

    /** The mentions of one platform that become events, when nobody else uses their keys.
        `clock` gives the instants of the Redis commands, two for each mention from 2 on. */
    method Deduplicate(redis: Redis<string>, up: bool, platform: string, mentions: seq<Mention>, clock: nat -> Time)
      returns (events: seq<Mention>)
      modifies redis
      ensures (events, redis.cells) == if up then Deduplicated(old(redis.cells), dedupTtl, platform, mentions, clock, |mentions|)
                                       else (mentions, old(redis.cells))
    {
      events := [];
      for i := 0 to |mentions|
        invariant up ==> (events, redis.cells) == Deduplicated(old(redis.cells), dedupTtl, platform, mentions, clock, i)
        invariant !up ==> events == mentions[..i] && redis.cells == old(redis.cells)
      {
        var emitted := Admit(redis, up, DedupKey(platform, mentions[i]), clock(2 * i + 2), clock(2 * i + 3));
        if emitted {
          events := events + [mentions[i]];
        }
      }
      assert mentions[..|mentions|] == mentions;
    }
  }

  /** A path of the check-then-set protocol from `cells` to `after`, with no write outstanding,
      that checks the keys of `ms` in order and writes those of `events`. */
  ghost predicate Follows(c: Config, platform: string, cells: Store<string>, start: Time, ms: seq<Mention>,
                          events: seq<Mention>, after: Store<string>, now: Time, ws: seq<World>, es: seq<Event>)
  {
    && AtRest(c, ws, es, after, now) && ws[0] == World(Expiries(cells), start, map[])
    && CheckedKeys(es) == Keys(platform, ms) && WrittenKeys(ws, es) == Keys(platform, events)
  }

  lemma FollowsOneMore(c: Config, platform: string, cells: Store<string>, start: Time, ms: seq<Mention>, events: seq<Mention>,
                       before: Store<string>, t0: Time, t1: Time, m: Mention, ws: seq<World>, es: seq<Event>)
    returns (ws': seq<World>, es': seq<Event>)
    requires c.tasks == 1 && t0 <= t1 && Follows(c, platform, cells, start, ms, events, before, t0, ws, es)
    ensures var key := DedupKey(platform, m);
            if Live(before, key, t0) then Follows(c, platform, cells, start, ms + [m], events, before, t1, ws', es')
            else Follows(c, platform, cells, start, ms + [m], events + [m], SetEx(before, key, "1", c.ttl, t1), t1, ws', es')
  {
    var key := DedupKey(platform, m);
    KeysSnoc(platform, ms, m);
    KeysSnoc(platform, events, m);
    if Live(before, key, t0) {
      ws', es' := RecordSkip(c, ws, es, before, key, t0);
    } else {
      ws', es' := RecordEmit(c, ws, es, before, key, t0, t1);
    }
  }

  ghost predicate NeverGoesBack(clock: nat -> Time) {
    forall i: nat, j: nat | i <= j :: clock(i) <= clock(j)
  }

  /** The loop is such a path, and emits exactly the mentions whose keys it writes. */
  lemma {:induction false} DeduplicationFollowsProtocol(cells: Store<string>, ttl: int, platform: string, ms: seq<Mention>, clock: nat -> Time, n: nat)
    returns (ws: seq<World>, es: seq<Event>)
    requires n <= |ms| && NeverGoesBack(clock)
    ensures var (events, after) := Deduplicated(cells, ttl, platform, ms, clock, n);
            Follows(Config(1, ttl), platform, cells, clock(0), ms[..n], events, after, clock(2 * n + 1), ws, es)
  {
    if n == 0 {
      assert clock(0) <= clock(1);
      ws, es := [World(Expiries(cells), clock(0), map[])], [];
    } else {
      var (events, before) := Deduplicated(cells, ttl, platform, ms, clock, n - 1);
      ws, es := DeduplicationFollowsProtocol(cells, ttl, platform, ms, clock, n - 1);
      assert clock(2 * (n - 1) + 1) <= clock(2 * n) <= clock(2 * n + 1);
      ws, es := FollowsOneMore(Config(1, ttl), platform, cells, clock(0), ms[..n - 1], events, before, clock(2 * n), clock(2 * n + 1), ms[n - 1], ws, es);
      assert ms[..n] == ms[..n - 1] + [ms[n - 1]];
    }
  }

  lemma KeysSnoc(platform: string, ms: seq<Mention>, m: Mention)
    ensures Keys(platform, ms + [m]) == Keys(platform, ms) + [DedupKey(platform, m)]
  {
  }

  ghost predicate AtRest(c: Config, ws: seq<World>, es: seq<Event>, cells: Store<string>, now: Time) {
    && IsPath(c, ws, es)
    && ws[|es|].expiry == Expiries(cells) && ws[|es|].pending == map[] && ws[|es|].clock <= now
  }

  lemma RecordSkip(c: Config, ws: seq<World>, es: seq<Event>, cells: Store<string>, key: string, t0: Time)
    returns (ws': seq<World>, es': seq<Event>)
    requires c.tasks == 1 && AtRest(c, ws, es, cells, t0) && Live(cells, key, t0)
    ensures AtRest(c, ws', es', cells, t0) && ws'[0] == ws[0]
    ensures CheckedKeys(es') == CheckedKeys(es) + [key] && WrittenKeys(ws', es') == WrittenKeys(ws, es)
  {
    ws', es' := Extended(c, ws, es, Check(0, key, t0));
  }

  lemma CheckedThenWritten(c: Config, w: World, cells: Store<string>, key: string, t0: Time, t1: Time)
    requires c.tasks == 1 && w.expiry == Expiries(cells) && w.pending == map[] && w.clock <= t0 <= t1 && !Live(cells, key, t0)
    ensures Enabled(c, w, Check(0, key, t0))
    ensures var checked := After(c, w, Check(0, key, t0));
            && checked.pending == map[0 := key] && Enabled(c, checked, Write(0, t1))
            && After(c, checked, Write(0, t1)) == World(Expiries(SetEx(cells, key, "1", c.ttl, t1)), t1, map[])
  {
    assert Expiries(SetEx(cells, key, "1", c.ttl, t1)) == Expiries(cells)[key := t1 + c.ttl];
  }

  lemma RecordEmit(c: Config, ws: seq<World>, es: seq<Event>, cells: Store<string>, key: string, t0: Time, t1: Time)
    returns (ws': seq<World>, es': seq<Event>)
    requires c.tasks == 1 && AtRest(c, ws, es, cells, t0) && !Live(cells, key, t0) && t0 <= t1
    ensures AtRest(c, ws', es', SetEx(cells, key, "1", c.ttl, t1), t1) && ws'[0] == ws[0]
    ensures CheckedKeys(es') == CheckedKeys(es) + [key] && WrittenKeys(ws', es') == WrittenKeys(ws, es) + [key]
  {
    ws', es' := Extended(c, ws, es, Check(0, key, t0));
    CheckedThenWritten(c, ws[|es|], cells, key, t0, t1);
    ws', es' := Extended(c, ws', es', Write(0, t1));
  }

  lemma Extended(c: Config, ws: seq<World>, es: seq<Event>, e: Event) returns (ws': seq<World>, es': seq<Event>)
    requires IsPath(c, ws, es) && Enabled(c, ws[|es|], e)
    ensures IsPath(c, ws', es') && ws'[0] == ws[0] && ws'[|es'|] == After(c, ws[|es|], e)
    ensures CheckedKeys(es') == CheckedKeys(es) + (if e.Check? then [e.key] else [])
    ensures WrittenKeys(ws', es') ==
            WrittenKeys(ws, es) + (if e.Write? && e.task in ws[|es|].pending then [ws[|es|].pending[e.task]] else [])
  {
    ws', es' := Extend(c, ws, es, e);
    LogSnoc(ws, es, After(c, ws[|es|], e), e);
  }

  lemma FirstColon(p: string, a: string)
    requires ':' !in p
    ensures var s := p + [':'] + a;
            s[|p|] == ':' && s[..|p|] == p && s[|p| + 1..] == a && forall i | 0 <= i < |p| :: s[i] != ':'
  {
    var s := p + [':'] + a;
    forall i | 0 <= i < |p| ensures s[i] != ':' { assert s[i] == p[i] && p[i] in p; }
  }

  lemma ColonsAgree(p: string, q: string, a: string, b: string)
    requires ':' !in p && ':' !in q && p + [':'] + a == q + [':'] + b
    ensures p == q && a == b
  {
    FirstColon(p, a);
    FirstColon(q, b);
  }

  /** Two mentions share a key exactly if they have the same platform and source id, as long as
      platform names contain no colon. */
  lemma KeysTellMentionsApart(p: string, m: Mention, q: string, n: Mention)
    requires ':' !in p && ':' !in q
    ensures DedupKey(p, m) == DedupKey(q, n) <==> p == q && m.sourceId == n.sourceId
  {
    if DedupKey(p, m) == DedupKey(q, n) {
      assert DedupKey(p, m)[6..] == p + [':'] + m.sourceId && DedupKey(q, n)[6..] == q + [':'] + n.sourceId;
      ColonsAgree(p, q, m.sourceId, n.sourceId);
    }
  }
}

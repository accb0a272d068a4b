/**
 Connection timers: per-thread buffers and delete lists that a background thread crawls
 into a wheel of sixty buckets (src/rpc_server/connection_timer_manager.cpp).
 */
module TimerWheel {
  import opened Words
  import opened CText

  const BUCKETS: nat := 60

  datatype Timer = Timer(expire: int, fd: int, version: int, thread: int, client: string)

  type Timers = map<string, Timer>

  // ----- Keys and buckets -----

  /** `*orig_str` as a signed char added to an unsigned number */
  function Signed(c: char): int {
    var code := c as int % 0x100;
    if code < 0x80 then code else code - 0x100
  }

  /** `BKDRHash` before it is cut to 31 bits */
  function BkdrLoop(s: string): Word {
    if s == "" then 0 else (BkdrLoop(s[..|s| - 1]) * 1313 + Signed(s[|s| - 1])) % SIZE
  }

  method BkdrHash(s: string) returns (h: Word)
    ensures h == BkdrLoop(s) % 0x8000_0000
  {
    h := 0;
    for i := 0 to |s|
      invariant h == BkdrLoop(s[..i])
    {
      assert s[..i + 1][..i] == s[..i];
      h := (h * 1313 + Signed(s[i])) % SIZE;
    }
    assert s[..|s|] == s;
    h := h % 0x8000_0000;
  }

  function Bucket(key: string): (b: nat)
    ensures b < BUCKETS
  {
    BkdrLoop(key) % 0x8000_0000 % BUCKETS
  }

  function Digits(n: nat): string {
    if n < 10 then [DigitOf(n)] else Digits(n / 10) + [DigitOf(n % 10)]
  }

  function DigitOf(d: nat): char
    requires d < 10
  {
    "0123456789"[d]
  }

  /** `std::to_string` */
  function Decimal(n: int): string {
    if n < 0 then "-" + Digits(-n) else Digits(n)
  }

  /** `GenerateTimerKey` */
  function TimerKey(addr: string, fd: int): string {
    addr + "_" + Decimal(fd)
  }

  lemma {:induction false} DigitsInjective(m: nat, n: nat)
    requires Digits(m) == Digits(n)
    ensures m == n
    decreases m
  {
    var s, t := Digits(m), Digits(n);
    assert s[|s| - 1] == DigitOf(m % 10) && t[|t| - 1] == DigitOf(n % 10);
    DigitsLong(m);
    DigitsLong(n);
    if m >= 10 {
      assert s[..|s| - 1] == Digits(m / 10) && t[..|t| - 1] == Digits(n / 10);
      DigitsInjective(m / 10, n / 10);
    }
  }

  lemma DigitsLong(n: nat)
    ensures if n < 10 then |Digits(n)| == 1 else |Digits(n)| >= 2
  {
    if n >= 10 && n / 10 >= 10 {
      DigitsLong(n / 10);
    }
  }

  lemma {:induction false} DigitsAreDigits(n: nat)
    ensures forall c | c in Digits(n) :: '0' <= c <= '9'
  {
    if n >= 10 {
      DigitsAreDigits(n / 10);
    }
  }

  lemma DecimalInjective(m: int, n: int)
    requires Decimal(m) == Decimal(n)
    ensures m == n
  {
    DigitsAreDigits(if m < 0 then -m else m);
    DigitsAreDigits(if n < 0 then -n else n);
    DigitsLong(if m < 0 then -m else m);
    DigitsLong(if n < 0 then -n else n);
    var s, t := Decimal(m), Decimal(n);
    assert s[0] in s && t[0] in t;
    if m >= 0 {
      assert s[0] in Digits(m);
    }
    if n >= 0 {
      assert t[0] in Digits(n);
    }
    if m < 0 {
      assert s[1..] == Digits(-m) && t[1..] == Digits(-n);
      DigitsInjective(-m, -n);
    } else {
      DigitsInjective(m, n);
    }
  }

  /** The number that a row of digits stands for. */
  function ReadDigits(s: string): int {
    if s == "" then 0 else 10 * ReadDigits(s[..|s| - 1]) + (s[|s| - 1] as int - '0' as int)
  }

  /** A key ends in the descriptor, written in decimal digits without leading zeros. */
  lemma {:induction false} DigitsRead(n: nat)
    ensures ReadDigits(Digits(n)) == n
    ensures Digits(n) != "" && (n > 0 ==> Digits(n)[0] != '0') && (n == 0 ==> Digits(n) == "0")
  {
    if n >= 10 {
      DigitsRead(n / 10);
      assert Digits(n)[..|Digits(n)| - 1] == Digits(n / 10);
    } else {
      assert Digits(n)[..0] == "";
    }
  }

  /** A key is the address, an underscore and the descriptor in decimal. */
  lemma TimerKeyReads(addr: string, fd: int)
    ensures var key := TimerKey(addr, fd);
            && |key| > |addr| + 1 && key[..|addr|] == addr && key[|addr|] == '_'
            && var digits := key[|addr| + 1..];
               if fd >= 0 then ReadDigits(digits) == fd
               else digits[0] == '-' && ReadDigits(digits[1..]) == -fd
  {
    hide Digits, ReadDigits;
    DigitsRead(if fd < 0 then -fd else fd);
    assert TimerKey(addr, fd)[|addr| + 1..] == Decimal(fd);
  }

  lemma NoSeparatorInDecimal(n: int)
    ensures '_' !in Decimal(n)
  {
    DigitsAreDigits(if n < 0 then -n else n);
  }

  /** Distinct connections never share a key, whatever their addresses look like. */
  lemma TimerKeyInjective(a: string, m: int, b: string, n: int)
    requires TimerKey(a, m) == TimerKey(b, n)
    ensures a == b && m == n
  {
    hide Decimal;
    LastSeparator(a, m);
    LastSeparator(b, n);
    var s, t := TimerKey(a, m), TimerKey(b, n);
    assert |a| == |b|;
    assert s[..|a|] == a && t[..|b|] == b;
    assert s[|a| + 1..] == Decimal(m) && t[|b| + 1..] == Decimal(n);
    DecimalInjective(m, n);
  }

  lemma LastSeparator(addr: string, fd: int)
    ensures var key := TimerKey(addr, fd);
            |addr| < |key| && key[|addr|] == '_' && forall k | |addr| < k < |key| :: key[k] != '_'
  {
    NoSeparatorInDecimal(fd);
    hide Decimal;
    var key := TimerKey(addr, fd);
    assert forall k | |addr| < k < |key| ::
      key[k] == Decimal(fd)[k - |addr| - 1] && Decimal(fd)[k - |addr| - 1] in Decimal(fd);
  }

  /** What a heartbeat is compared with: the key up to its first underscore. */
  function AddressPart(key: string): string {
    key[..Find(key, '_')]
  }

  /** The address is recovered from a key exactly when it has no underscore itself. */
  lemma AddressRecoveredIff(addr: string, fd: int)
    ensures AddressPart(TimerKey(addr, fd)) == addr <==> '_' !in addr
    ensures Find(TimerKey(addr, fd), '_') < |TimerKey(addr, fd)|
  {
    var key := TimerKey(addr, fd);
    var i := Find(key, '_');
    assert key[|addr|] == '_';
    assert forall k | 0 <= k < i :: key[k] == key[..i][k] && key[k] != '_';
    assert i <= |addr|;
    assert key[..i] == addr[..i];
    if '_' !in addr {
      assert key[..|addr|] == addr;
      FindUnique(key, '_', |addr|);
    }
  }

  // ----- The wheel as one map -----

  type Buckets = seq<Option<Timers>>

  /** Every key sits in the bucket it hashes to, and is of the generated form. */
  ghost predicate Hashed(buckets: Buckets) {
    && |buckets| == BUCKETS
    && forall b, k | 0 <= b < BUCKETS && buckets[b].Some? && k in buckets[b].value :: Bucket(k) == b && '_' in k
  }

  ghost predicate Separated(timers: Timers) {
    forall k | k in timers :: '_' in k
  }

  predicate Holds(buckets: Buckets, k: string)
    requires |buckets| == BUCKETS
  {
    buckets[Bucket(k)].Some? && k in buckets[Bucket(k)].value
  }

  ghost function KeysIn(buckets: Buckets): set<string> {
    set b, k | 0 <= b < |buckets| && buckets[b].Some? && k in buckets[b].value :: k
  }

  ghost function Flat(buckets: Buckets): Timers
    requires Hashed(buckets)
  {
    map k | k in KeysIn(buckets) :: buckets[Bucket(k)].value[k]
  }

  lemma FlatHolds(buckets: Buckets)
    requires Hashed(buckets)
    ensures forall k :: k in Flat(buckets) <==> Holds(buckets, k)
    ensures forall k | Holds(buckets, k) :: Flat(buckets)[k] == buckets[Bucket(k)].value[k]
  {
    hide Bucket;
    forall k | Holds(buckets, k)
      ensures k in KeysIn(buckets)
    {
      var b := Bucket(k);
    }
  }

  /** Changing one bucket to `timers` changes the flat map on that bucket's keys only. */
  lemma FlatUpdate(buckets: Buckets, b: nat, timers: Timers, flat: Timers)
    requires Hashed(buckets) && b < BUCKETS && Separated(timers) && forall k | k in timers :: Bucket(k) == b
    requires forall k :: k in flat <==> if Bucket(k) == b then k in timers else k in Flat(buckets)
    requires forall k | k in flat :: flat[k] == if Bucket(k) == b then timers[k] else Flat(buckets)[k]
    ensures var buckets' := buckets[b := Some(timers)]; Hashed(buckets') && Flat(buckets') == flat
  {
    hide Bucket, Flat;
    var buckets' := buckets[b := Some(timers)];
    FlatHolds(buckets);
    FlatHolds(buckets');
    assert Flat(buckets').Keys == flat.Keys;
  }

  // ----- What a crawl means -----

  ghost function Listed(dels: seq<string>): set<string> {
    set k | k in dels
  }

  /** Deleted keys leave the wheel and the buffer; then the buffer fills the gaps. */
  ghost function CrawledOne(wheel: Timers, buffer: Timers, dels: seq<string>): Timers {
    (buffer - Listed(dels)) + (wheel - Listed(dels))
  }

  function OrEmpty<T>(o: Option<map<string, T>>): map<string, T> {
    if o.Some? then o.value else map[]
  }

  function OrNone(o: Option<seq<string>>): seq<string> {
    if o.Some? then o.value else []
  }

  /** The wheel after the first `n` buffers and their delete lists have been merged. */
  ghost function Crawled(wheel: Timers, buffers: Buckets, dels: seq<Option<seq<string>>>, n: nat): Timers
    requires n <= |buffers| == |dels|
  {
    if n == 0 then wheel
    else CrawledOne(Crawled(wheel, buffers, dels, n - 1), OrEmpty(buffers[n - 1]), OrNone(dels[n - 1]))
  }

  // ----- What an examination means -----

  function Refreshed(k: string, t: Timer, refresh: Option<set<string>>, fresh': int): Timer {
    if refresh.Some? && AddressPart(k) in refresh.value then t.(expire := fresh') else t
  }

  /** A timer is kept when the test of the source, read as written, does not evict it. */
  function Kept(t: Timer, now: int): bool {
    !(t.expire > now)
  }

  ghost function Examined(timers: Timers, refresh: Option<set<string>>, now: int, interval: int): Timers {
    map k | k in timers && Kept(Refreshed(k, timers[k], refresh, now + interval), now) ::
      Refreshed(k, timers[k], refresh, now + interval)
  }

  /** Only the keys of the current bucket are examined. */
  ghost function ExaminedAt(wheel: Timers, b: nat, refresh: Option<set<string>>, now: int, interval: int): Timers {
    map k | k in wheel && (Bucket(k) == b ==> Kept(Refreshed(k, wheel[k], refresh, now + interval), now)) ::
      if Bucket(k) == b then Refreshed(k, wheel[k], refresh, now + interval) else wheel[k]
  }

  class ConnectionTimerManager {
    var buffers: Buckets
    var dels: seq<Option<seq<string>>>
    var buckets: array<Option<Timers>>
    var refresh: Option<set<string>>
    var bucketIndex: nat
    const interval: int

    ghost predicate Valid()
      reads this, buckets
    {
      && |buffers| == |dels|
      && (forall i | 0 <= i < |buffers| :: Separated(OrEmpty(buffers[i])))
      && buckets.Length == BUCKETS && Hashed(buckets[..])
      && bucketIndex < BUCKETS
    }

    ghost function Wheel(): Timers
      requires Valid()
      reads this, buckets
    {
      Flat(buckets[..])
    }

    constructor (interval: int)
      ensures Valid() && fresh(buckets) && Wheel() == map[]
      ensures this.interval == interval && buffers == [] && dels == [] && refresh == Some({}) && bucketIndex == 0
    {
      this.interval := interval;
      buffers, dels, refresh, bucketIndex := [], [], Some({}), 0;
      buckets := new Option<Timers>[BUCKETS](_ => None);
    }

    /** A new thread gets the next buffer and delete list, both empty. */
    method InitTimerBuf() returns (index: nat)
      requires Valid()
      modifies this`buffers, this`dels
      ensures Valid() && index == |old(buffers)|
      ensures buffers == old(buffers) + [Some(map[])] && dels == old(dels) + [Some([])]
    {
      index := |buffers|;
      buffers := buffers + [Some(map[])];
      dels := dels + [Some([])];
    }

    /** A timer goes to the thread's buffer; a key already there is kept. */
    method InsertConnectionTimer(addr: string, fd: int, index: nat, version: int, thread: int, now: int)
      requires Valid() && index < |buffers|
      modifies this`buffers
      ensures Valid()
      ensures var key, t := TimerKey(addr, fd), Timer(now + interval, fd, version, thread, addr);
              buffers == old(buffers)[index := Some(map[key := t] + OrEmpty(old(buffers)[index]))]
    {
      var timer := Timer(now + interval, fd, version, thread, addr);
      if buffers[index].None? {
        buffers := buffers[index := Some(map[])];
      }
      var key := TimerKey(addr, fd);
      assert key[|addr|] == '_';
      if key !in buffers[index].value {
        buffers := buffers[index := Some(buffers[index].value[key := timer])];
      }
      assert buffers[index].value == map[key := timer] + OrEmpty(old(buffers)[index]);
    }

    method DeleteConnectionTimer(addr: string, fd: int, index: nat)
      requires Valid() && index < |dels|
      modifies this`dels
      ensures Valid()
      ensures dels == old(dels)[index := Some(OrNone(old(dels)[index]) + [TimerKey(addr, fd)])]
    {
      if dels[index].None? {
        dels := dels[index := Some([])];
      }
      dels := dels[index := Some(dels[index].value + [TimerKey(addr, fd)])];
    }

    method InsertRefreshConnectionInfo(addr: string)
      requires Valid()
      modifies this`refresh
      ensures Valid() && refresh == Some((if old(refresh).Some? then old(refresh).value else {}) + {addr})
    {
      if refresh.None? {
        refresh := Some({});
      }
      refresh := Some(refresh.value + {addr});
    }

    /** Erase one key from the bucket it hashes to. */
    method EraseFromPool(key: string)
      requires Valid()
      modifies buckets
      ensures Valid() && Wheel() == old(Wheel()) - {key}
    {
      hide Flat, BkdrLoop;
      var hash := BkdrHash(key);
      var b := hash % BUCKETS;
      assert b == Bucket(key);
      hide Bucket;
      FlatHolds(buckets[..]);
      if buckets[b].Some? {
        FlatUpdate(buckets[..], b, buckets[b].value - {key}, Wheel() - {key});
        buckets[b] := Some(buckets[b].value - {key});
        assert buckets[..] == old(buckets[..])[b := buckets[b]];
      } else {
        assert Wheel() - {key} == Wheel();
      }
    }

    /** Insert one key into the bucket it hashes to, unless it is there. */
    method InsertIntoPool(key: string, timer: Timer)
      requires Valid() && '_' in key
      modifies buckets
      ensures Valid() && Wheel() == map[key := timer] + old(Wheel())
    {
      hide Flat, BkdrLoop;
      var hash := BkdrHash(key);
      var b := hash % BUCKETS;
      assert b == Bucket(key);
      hide Bucket;
      FlatHolds(buckets[..]);
      var timers := OrEmpty(buckets[b]);
      if key !in timers {
        timers := timers[key := timer];
      }
      FlatUpdate(buckets[..], b, timers, map[key := timer] + Wheel());
      buckets[b] := Some(timers);
      assert buckets[..] == old(buckets[..])[b := Some(timers)];
    }

    /** Take the deleted keys out of the local buffer and out of the pool. */
    method EraseListed(local: Timers, list: seq<string>) returns (rest: Timers)
      requires Valid()
      modifies buckets
      ensures Valid() && rest == local - Listed(list) && Wheel() == old(Wheel()) - Listed(list)
    {
      hide Flat, Bucket;
      ghost var was := Wheel();
      rest := local;
      assert was - {} == was;
      for i := 0 to |list|
        invariant Valid()
        invariant rest == local - Listed(list[..i]) && Wheel() == was - Listed(list[..i])
      {
        assert Listed(list[..i + 1]) == Listed(list[..i]) + {list[i]};
        rest := rest - {list[i]};
        EraseFromPool(list[i]);
      }
      assert list[..|list|] == list;
    }

    /** Hash what is left of the buffer into the pool, in any order. */
    method InsertAll(local: Timers)
      requires Valid() && Separated(local)
      modifies buckets
      ensures Valid() && Wheel() == local + old(Wheel())
    {
      hide Flat, Bucket;
      var todo := local.Keys;
      ghost var was := Wheel();
      assert local - todo == map[];
      while todo != {}
        invariant Valid() && todo <= local.Keys
        invariant Wheel() == (local - todo) + was
        decreases todo
      {
        var k :| k in todo;
        InsertIntoPool(k, local[k]);
        OneLessLeft(local, todo, k, was);
        todo := todo - {k};
      }
      assert local - {} == local;
    }

    /** Merge one thread's buffer and delete list into the wheel. */
    method CrawlBuffer(local: Timers, list: seq<string>)
      requires Valid() && Separated(local)
      modifies buckets
      ensures Valid() && Wheel() == CrawledOne(old(Wheel()), local, list)
    {
      hide Flat, Bucket;
      var rest := EraseListed(local, list);
      InsertAll(rest);
    }

    /** Every buffer and delete list is taken and merged, in index order. */
    method ConnectionBufCrawler()
      requires Valid()
      modifies this`buffers, this`dels, buckets
      ensures Valid() && |buffers| == |old(buffers)|
      ensures forall i | 0 <= i < |buffers| :: buffers[i] == None && dels[i] == None
      ensures Wheel() == Crawled(old(Wheel()), old(buffers), old(dels), |old(buffers)|)
    {
      hide Flat, CrawledOne;
      for i := 0 to |buffers|
        invariant Valid() && |buffers| == |old(buffers)|
        invariant forall j | 0 <= j < i :: buffers[j] == None && dels[j] == None
        invariant forall j | i <= j < |buffers| :: buffers[j] == old(buffers)[j] && dels[j] == old(dels)[j]
        invariant Wheel() == Crawled(old(Wheel()), old(buffers), old(dels), i)
      {
        var list, local := OrNone(dels[i]), OrEmpty(buffers[i]);
        dels := dels[i := None];
        buffers := buffers[i := None];
        CrawlBuffer(local, list);
      }
    }

    /** The walk over one bucket: refresh what a heartbeat named, then apply the eviction test. */
    method Examine(timers: Timers, marked: Option<set<string>>, now: int) returns (kept: Timers)
      requires Separated(timers)
      ensures kept == Examined(timers, marked, now, interval)
    {
      hide Examined;
      kept := map[];
      var todo := timers.Keys;
      assert timers - todo == map[];
      NothingExamined(marked, now, interval);
      while todo != {}
        invariant todo <= timers.Keys
        invariant kept == Examined(timers - todo, marked, now, interval)
        decreases todo
      {
        var k :| k in todo;
        ExaminedOneMore(timers - todo, k, timers[k], marked, now, interval);
        OneLessLeft(timers, todo, k, map[]);
        var timer := timers[k];
        if marked.Some? {
          // The source erases a key without a separator here; a generated key has one.
          var separator := Find(k, '_');
          assert separator < |k|;
          if k[..separator] in marked.value {
            timer := timer.(expire := now + interval);
          }
        }
        if !(timer.expire > now) {
          kept := kept[k := timer];
        }
        todo := todo - {k};
      }
      assert timers - {} == timers;
    }

    /** One turn of the background loop. */
    method Tick(now: int)
      requires Valid()
      modifies this`buffers, this`dels, this`refresh, this`bucketIndex, buckets
      ensures Valid() && bucketIndex == (old(bucketIndex) + 1) % BUCKETS
      ensures forall i | 0 <= i < |buffers| :: buffers[i] == None && dels[i] == None
      ensures var crawled := Crawled(old(Wheel()), old(buffers), old(dels), |old(buffers)|);
              Wheel() == ExaminedAt(crawled, old(bucketIndex), old(refresh), now, interval)
    {
      hide Flat, Bucket, Crawled, Refreshed;
      ConnectionBufCrawler();
      ghost var crawled := Wheel();
      var b := bucketIndex;
      FlatHolds(buckets[..]);
      if buckets[b].None? || buckets[b].value == map[] {
        NothingToExamine(crawled, b, refresh, now, interval);
      } else {
        var marked := refresh;
        refresh := None;
        ghost var was := buckets[..];
        var kept := Examine(buckets[b].value, marked, now);
        FlatUpdate(was, b, kept, ExaminedAt(crawled, b, marked, now, interval));
        buckets[b] := Some(kept);
        assert buckets[..] == was[b := Some(kept)];
      }
      bucketIndex := (bucketIndex + 1) % BUCKETS;
    }
  }

  lemma OneLessLeft(m: Timers, todo: set<string>, k: string, base: Timers)
    requires todo <= m.Keys && k in todo
    ensures m - (todo - {k}) == (m - todo)[k := m[k]]
    ensures m - (todo - {k}) + base == map[k := m[k]] + (m - todo + base)
  {}

  lemma NothingExamined(refresh: Option<set<string>>, now: int, interval: int)
    ensures Examined(map[], refresh, now, interval) == map[]
  {}

  lemma ExaminedOneMore(timers: Timers, k: string, t: Timer, refresh: Option<set<string>>, now: int, interval: int)
    requires k !in timers
    ensures var t', before := Refreshed(k, t, refresh, now + interval), Examined(timers, refresh, now, interval);
            Examined(timers[k := t], refresh, now, interval) == if Kept(t', now) then before[k := t'] else before
  {
    hide Refreshed;
  }

  lemma NothingToExamine(wheel: Timers, b: nat, refresh: Option<set<string>>, now: int, interval: int)
    requires forall k | k in wheel :: Bucket(k) != b
    ensures ExaminedAt(wheel, b, refresh, now, interval) == wheel
  {}

  // ----- Turns of the wheel -----

  /** What one turn of the loop finds: the wheel, and what the threads have left for it. */
  datatype Turn = Turn(wheel: Timers, index: nat, buffers: Buckets, dels: seq<Option<seq<string>>>,
                       refresh: Option<set<string>>, now: int)

  ghost function AfterCrawl(t: Turn): Timers
    requires |t.buffers| == |t.dels|
  {
    Crawled(t.wheel, t.buffers, t.dels, |t.buffers|)
  }

  /** `Tick` turn after turn, with anything in the buffers and any heartbeats in between. */
  ghost predicate Turns(run: seq<Turn>, interval: int) {
    && (forall i | 0 <= i < |run| :: |run[i].buffers| == |run[i].dels| && run[i].index < BUCKETS)
    && forall i | 0 <= i < |run| - 1 ::
         && run[i + 1].index == (run[i].index + 1) % BUCKETS
         && run[i + 1].wheel == ExaminedAt(AfterCrawl(run[i]), run[i].index, run[i].refresh, run[i].now, interval)
  }

  lemma {:induction false} IndexAfter(run: seq<Turn>, interval: int, i: nat, n: nat)
    requires Turns(run, interval) && i + n < |run|
    ensures run[i + n].index == (run[i].index + n) % BUCKETS
    decreases n
  {
    if n > 0 {
      IndexAfter(run, interval, i, n - 1);
      assert run[i + n - 1 + 1].index == (run[i + n - 1].index + 1) % BUCKETS;
      NextIndex(run[i].index + n - 1);
    }
  }

  lemma NextIndex(a: nat)
    ensures (a % BUCKETS + 1) % BUCKETS == (a + 1) % BUCKETS
  {}

  /** The timer `k` is put to the eviction test in this turn. */
  ghost predicate Tested(t: Turn, k: string)
    requires |t.buffers| == |t.dels|
  {
    k in AfterCrawl(t) && Bucket(k) == t.index
  }

  /** Some thread has asked for the deletion of `k`. */
  ghost predicate Requested(t: Turn, k: string) {
    exists b :: 0 <= b < |t.dels| && k in OrNone(t.dels[b])
  }

  /** A heartbeat has named the address of `k`. */
  ghost predicate Beats(t: Turn, k: string) {
    t.refresh.Some? && AddressPart(k) in t.refresh.value
  }

  /** Deletion is the only way out of a crawl: other keys of the wheel stay with their timers. */
  lemma {:induction false} CrawlKeeps(wheel: Timers, buffers: Buckets, dels: seq<Option<seq<string>>>, n: nat, k: string)
    requires n <= |buffers| == |dels| && k in wheel
    requires forall i | 0 <= i < n :: k !in OrNone(dels[i])
    ensures k in Crawled(wheel, buffers, dels, n) && Crawled(wheel, buffers, dels, n)[k] == wheel[k]
  {
    if n > 0 {
      CrawlKeeps(wheel, buffers, dels, n - 1, k);
    }
  }

  /**
   What a crawl leaves of a key, `d` being the last delete list that names it, or -1.  A timer
   of the wheel stays if no list names it.  Otherwise the first later buffer that holds the key
   provides its timer, and without such a buffer the key is gone.
   */
  lemma {:induction false} CrawledKey(wheel: Timers, buffers: Buckets, dels: seq<Option<seq<string>>>, n: nat, k: string, d: int)
    requires n <= |buffers| == |dels| && -1 <= d < n
    requires d >= 0 ==> k in OrNone(dels[d])
    requires forall i | d < i < n :: k !in OrNone(dels[i])
    ensures var r, kept := Crawled(wheel, buffers, dels, n), d == -1 && k in wheel;
            && (kept ==> k in r && r[k] == wheel[k])
            && (!kept && (forall i | d < i < n :: k !in OrEmpty(buffers[i])) ==> k !in r)
            && (forall i | !kept && FirstHolder(buffers, d, i, n, k) :: k in r && r[k] == OrEmpty(buffers[i])[k])
  {
    if d < n - 1 {
      var last := n - 1;
      CrawledKey(wheel, buffers, dels, last, k, d);
      var before, kept := Crawled(wheel, buffers, dels, last), d == -1 && k in wheel;
      if !kept && k in before {
        var i := HolderBefore(buffers, d, last, k);
      }
    }
  }

  /** Buffer `i` is the first after list `d` that holds `k`. */
  ghost predicate FirstHolder(buffers: Buckets, d: int, i: int, n: nat, k: string)
    requires n <= |buffers| && -1 <= d
  {
    && d < i < n && k in OrEmpty(buffers[i])
    && forall j | d < j < i :: k !in OrEmpty(buffers[j])
  }

  lemma {:induction false} HolderBefore(buffers: Buckets, d: int, n: nat, k: string) returns (i: nat)
    requires n <= |buffers| && -1 <= d < n && exists j :: d < j < n && k in OrEmpty(buffers[j])
    ensures FirstHolder(buffers, d, i, n, k)
  {
    var j :| d < j < n && k in OrEmpty(buffers[j]);
    if j' :| d < j' < j && k in OrEmpty(buffers[j']) {
      i := HolderBefore(buffers, d, j, k);
    } else {
      i := j;
    }
  }

  /** A buffered key enters the wheel unless its own or a later delete list names it. */
  lemma {:induction false} BufferedEnters(wheel: Timers, buffers: Buckets, dels: seq<Option<seq<string>>>, n: nat, b: nat, k: string)
    requires b < n <= |buffers| == |dels| && k in OrEmpty(buffers[b])
    requires forall i | b <= i < n :: k !in OrNone(dels[i])
    ensures k in Crawled(wheel, buffers, dels, n)
  {
    if b < n - 1 {
      BufferedEnters(wheel, buffers, dels, n - 1, b, k);
    }
  }

  lemma UnrequestedStays(t: Turn, k: string)
    requires |t.buffers| == |t.dels| && k in t.wheel && !Requested(t, k)
    ensures k in AfterCrawl(t) && AfterCrawl(t)[k] == t.wheel[k]
  {
    CrawlKeeps(t.wheel, t.buffers, t.dels, |t.buffers|, k);
  }

  /** The turn in which the bucket of `k` comes up next, from turn `i` on. */
  function TestTurn(run: seq<Turn>, i: nat, k: string): (j: nat)
    requires i < |run| && run[i].index < BUCKETS
    ensures i <= j < i + BUCKETS
  {
    var b, index := Bucket(k), run[i].index;
    i + if b >= index then b - index else b - index + BUCKETS
  }

  lemma TestTurnIndex(run: seq<Turn>, interval: int, i: nat, k: string)
    requires Turns(run, interval) && i + BUCKETS <= |run|
    ensures run[TestTurn(run, i, k)].index == Bucket(k)
    ensures forall n | i <= n < TestTurn(run, i, k) :: run[n].index != Bucket(k)
  {
    hide Bucket, ExaminedAt, AfterCrawl;
    var j := TestTurn(run, i, k);
    IndexAfter(run, interval, i, j - i);
    RoundTheWheel(run[i].index, j - i);
    forall n | i <= n < j
      ensures run[n].index != Bucket(k)
    {
      IndexAfter(run, interval, i, n - i);
      RoundTheWheel(run[i].index, n - i);
    }
  }

  lemma RoundTheWheel(a: nat, n: nat)
    requires a < BUCKETS && n < BUCKETS
    ensures (a + n) % BUCKETS == if a + n < BUCKETS then a + n else a + n - BUCKETS
  {}

  /** A timer whose bucket does not come up and whose deletion nobody asks for stays as it is. */
  lemma {:induction false} UntestedStays(run: seq<Turn>, interval: int, i: nat, j: nat, k: string)
    requires Turns(run, interval) && i <= j < |run| && k in run[i].wheel
    requires forall n | i <= n < j :: run[n].index != Bucket(k) && !Requested(run[n], k)
    ensures k in run[j].wheel && run[j].wheel[k] == run[i].wheel[k]
    decreases j - i
  {
    hide Bucket, Requested, AfterCrawl, Refreshed;
    if i < j {
      UnrequestedStays(run[i], k);
      UntestedStays(run, interval, i + 1, j, k);
    }
  }

  /**
   Within sixty turns every timer of the wheel is tested, unchanged, or somebody has asked
   for its deletion.
   */
  lemma EveryTimerTested(run: seq<Turn>, interval: int, i: nat, k: string)
    requires Turns(run, interval) && i + BUCKETS <= |run| && k in run[i].wheel
    ensures exists j :: i <= j < i + 60 && run[j].index == Bucket(k) &&
              ((Tested(run[j], k) && AfterCrawl(run[j])[k] == run[i].wheel[k]) || exists d :: i <= d <= j && Requested(run[d], k))
  {
    hide Bucket, Requested, AfterCrawl;
    var j := TestTurn(run, i, k);
    TestTurnIndex(run, interval, i, k);
    if forall d | i <= d <= j :: !Requested(run[d], k) {
      UntestedStays(run, interval, i, j, k);
      UnrequestedStays(run[j], k);
      assert Tested(run[j], k);
    }
  }

  /** A timer that a thread leaves in its buffer is tested within sixty turns, unless somebody asks for its deletion. */
  lemma BufferedIsTested(run: seq<Turn>, interval: int, i: nat, b: nat, k: string)
    requires Turns(run, interval) && i + 60 < |run| && b < |run[i].buffers| && k in OrEmpty(run[i].buffers[b])
    requires forall e | b <= e < |run[i].dels| :: k !in OrNone(run[i].dels[e])
    ensures exists j :: i <= j < i + 60 && run[j].index == Bucket(k) &&
              (Tested(run[j], k) || exists d :: i < d <= j && Requested(run[d], k))
  {
    hide Bucket, Requested, AfterCrawl, Refreshed, Crawled;
    BufferedIn(run[i], b, k);
    if run[i].index == Bucket(k) {
      assert Tested(run[i], k);
    } else {
      PassedOver(run, interval, i, k);
      IndexAfter(run, interval, i, 60);
      EveryTimerTested(run, interval, i + 1, k);
    }
  }

  lemma BufferedIn(t: Turn, b: nat, k: string)
    requires |t.buffers| == |t.dels| && b < |t.buffers| && k in OrEmpty(t.buffers[b])
    requires forall e | b <= e < |t.dels| :: k !in OrNone(t.dels[e])
    ensures k in AfterCrawl(t)
  {
    BufferedEnters(t.wheel, t.buffers, t.dels, |t.buffers|, b, k);
  }

  lemma PassedOver(run: seq<Turn>, interval: int, i: nat, k: string)
    requires Turns(run, interval) && i + 1 < |run| && k in AfterCrawl(run[i]) && run[i].index != Bucket(k)
    ensures k in run[i + 1].wheel && run[i + 1].wheel[k] == AfterCrawl(run[i])[k]
  {
    hide Bucket, AfterCrawl, Refreshed;
    assert run[i + 1].wheel == ExaminedAt(AfterCrawl(run[i]), run[i].index, run[i].refresh, run[i].now, interval);
  }

  /**
   The eviction test is upside down.  A timer that nobody deletes is evicted when its bucket
   comes up exactly if it has not expired then, and a heartbeat with a positive interval gets
   its own connection evicted.
   */
  lemma EvictionIsInverted(run: seq<Turn>, interval: int, i: nat, k: string)
    requires Turns(run, interval) && i + BUCKETS < |run| && k in run[i].wheel
    requires forall d | i <= d <= TestTurn(run, i, k) :: !Requested(run[d], k)
    ensures var j := TestTurn(run, i, k);
            var expire := if Beats(run[j], k) then run[j].now + interval else run[i].wheel[k].expire;
            && (k in run[j + 1].wheel <==> expire <= run[j].now)
            && (k in run[j + 1].wheel ==> run[j + 1].wheel[k] == run[i].wheel[k].(expire := expire))
            && (Beats(run[j], k) && interval > 0 ==> k !in run[j + 1].wheel)
  {
    var j := TestTurn(run, i, k);
    TestTurnIndex(run, interval, i, k);
    UntestedStays(run, interval, i, j, k);
    UnrequestedStays(run[j], k);
    hide Bucket, Requested, AfterCrawl;
    assert run[j + 1].wheel == ExaminedAt(AfterCrawl(run[j]), run[j].index, run[j].refresh, run[j].now, interval);
  }

  /** An expired timer is never evicted: it stays, turn after turn, until a deletion or a heartbeat. */
  lemma {:induction false} ExpiredStays(run: seq<Turn>, interval: int, i: nat, j: nat, k: string)
    requires Turns(run, interval) && i <= j < |run| && k in run[i].wheel
    requires forall n | i <= n < j :: !Requested(run[n], k) && !Beats(run[n], k) && run[i].wheel[k].expire <= run[n].now
    ensures k in run[j].wheel && run[j].wheel[k] == run[i].wheel[k]
    decreases j - i
  {
    hide Bucket, Requested, AfterCrawl;
    if i < j {
      UnrequestedStays(run[i], k);
      assert run[i + 1].wheel == ExaminedAt(AfterCrawl(run[i]), run[i].index, run[i].refresh, run[i].now, interval);
      ExpiredStays(run, interval, i + 1, j, k);
    }
  }
}

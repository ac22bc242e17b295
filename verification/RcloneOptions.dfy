/**
 The options of a sync task on their way to rclone: into the global configuration, the filter
 rules, or the path of one side. The source iterates over maps, so in no particular order;
 `order` parameters say which one it happens to be.
 */
module RcloneOptions {
  import opened Options
  import opened Text
  import opened FsSpec
  import opened RcloneWire

  datatype Bucket = ConfigBucket | FilterBucket | BackendBucket
  datatype Place = Place(bucket: Bucket, name: string)
  datatype Buckets = Buckets(config: map<string, Value>, filter: map<string, Value>, backend: map<string, Value>)

  /** Where an option goes; an unknown one keeps its name among the global ones. */
  function PlaceOf(t: Wires, key: string): Place {
    if key in t.backend then Place(BackendBucket, key)
    else if Find(t.filter, key).Some? then Place(FilterBucket, Find(t.filter, key).value)
    else if Find(t.config, key).Some? then Place(ConfigBucket, Find(t.config, key).value)
    else Place(ConfigBucket, key)
  }

  predicate IsKnown(t: Wires, key: string) {
    key in t.backend || Find(t.filter, key).Some? || Find(t.config, key).Some?
  }

  function Put(b: Buckets, p: Place, v: Value): Buckets {
    match p.bucket
    case ConfigBucket => b.(config := b.config[p.name := v])
    case FilterBucket => b.(filter := b.filter[p.name := v])
    case BackendBucket => b.(backend := b.backend[p.name := v])
  }

  function At(m: map<string, Value>, name: string): Option<Value> {
    if name in m then Some(m[name]) else None
  }

  function Get(b: Buckets, p: Place): Option<Value> {
    match p.bucket
    case ConfigBucket => At(b.config, p.name)
    case FilterBucket => At(b.filter, p.name)
    case BackendBucket => At(b.backend, p.name)
  }

  const EMPTY := Buckets(map[], map[], map[])

  function SplitInOrder(t: Wires, options: map<string, Value>, order: seq<string>): Buckets
    requires forall k :: k in order ==> k in options
  {
    if order == [] then EMPTY
    else
      var last := order[|order| - 1];
      Put(SplitInOrder(t, options, order[..|order| - 1]), PlaceOf(t, last), options[last])
  }

  method SplitRcloneOptions(t: Wires, options: map<string, Value>, order: seq<string>)
    returns (config: map<string, Value>, filter: map<string, Value>, backend: map<string, Value>)
    requires Lists(order, options.Keys)
    ensures Buckets(config, filter, backend) == SplitInOrder(t, options, order)
  {
    config, filter, backend := map[], map[], map[];
    for i := 0 to |order|
      invariant Buckets(config, filter, backend) == SplitInOrder(t, options, order[..i])
    {
      var k := order[i];
      assert order[..i + 1][..i] == order[..i];
      if k in t.backend {
        backend := backend[k := options[k]];
        continue;
      }
      var w := Find(t.filter, k);
      if w.Some? {
        filter := filter[w.value := options[k]];
        continue;
      }
      w := Find(t.config, k);
      if w.Some? {
        config := config[w.value := options[k]];
        continue;
      }
      config := config[k := options[k]];
    }
    assert order[..|order|] == order;
  }

  /** The last option of a list that goes to a place. */
  function LastTo(t: Wires, order: seq<string>, p: Place): Option<string> {
    if order == [] then None
    else if PlaceOf(t, order[|order| - 1]) == p then Some(order[|order| - 1])
    else LastTo(t, order[..|order| - 1], p)
  }

  lemma {:induction false} LastToHolds(t: Wires, order: seq<string>, p: Place)
    ensures match LastTo(t, order, p)
            case None => forall k :: k in order ==> PlaceOf(t, k) != p
            case Some(k) => k in order && PlaceOf(t, k) == p
  {
    if order != [] {
      LastToHolds(t, order[..|order| - 1], p);
      assert order == order[..|order| - 1] + [order[|order| - 1]];
    }
  }

  lemma GetPut(b: Buckets, p: Place, q: Place, v: Value)
    ensures Get(Put(b, p, v), q) == if p == q then Some(v) else Get(b, q)
  {
  }

  /** A place holds the value of the last option that goes there. */
  lemma {:induction false} LastWins(t: Wires, options: map<string, Value>, order: seq<string>, p: Place)
    requires forall k :: k in order ==> k in options
    ensures match LastTo(t, order, p)
            case None => Get(SplitInOrder(t, options, order), p) == None
            case Some(k) => k in options && Get(SplitInOrder(t, options, order), p) == Some(options[k])
  {
    if order != [] {
      var front, last := order[..|order| - 1], order[|order| - 1];
      LastWins(t, options, front, p);
      GetPut(SplitInOrder(t, options, front), PlaceOf(t, last), p, options[last]);
    }
  }

  lemma SameBuckets(a: Buckets, b: Buckets)
    requires forall p :: Get(a, p) == Get(b, p)
    ensures a == b
  {
    forall name
      ensures At(a.config, name) == At(b.config, name)
      ensures At(a.filter, name) == At(b.filter, name)
      ensures At(a.backend, name) == At(b.backend, name)
    {
      assert Get(a, Place(ConfigBucket, name)) == Get(b, Place(ConfigBucket, name));
      assert Get(a, Place(FilterBucket, name)) == Get(b, Place(FilterBucket, name));
      assert Get(a, Place(BackendBucket, name)) == Get(b, Place(BackendBucket, name));
    }
    SameMap(a.config, b.config);
    SameMap(a.filter, b.filter);
    SameMap(a.backend, b.backend);
  }

  lemma SameMap(a: map<string, Value>, b: map<string, Value>)
    requires forall name :: At(a, name) == At(b, name)
    ensures a == b
  {
    forall name
      ensures name in a <==> name in b
      ensures name in a && name in b ==> a[name] == b[name]
    {
      assert At(a, name) == At(b, name);
    }
  }

  // ----- when two options collide -----

  /** An unknown option that is spelled like the field of a known one, beside that one. */
  predicate Collide(t: Wires, known: string, unknown: string) {
    PlaceOf(t, known) == Place(ConfigBucket, unknown) && IsKnown(t, known) && !IsKnown(t, unknown)
  }

  /** Two different options share a place exactly if they collide. */
  lemma SharedPlace(t: Wires, a: string, b: string)
    requires Fit(t)
    requires a != b
    ensures PlaceOf(t, a) == PlaceOf(t, b) <==> Collide(t, a, b) || Collide(t, b, a)
  {
    WiresAreInjective(t, a, b);
  }

  /** No option is lost: each goes to one place and its value is there, whatever the order. */
  lemma NothingIsLost(t: Wires, options: map<string, Value>, order: seq<string>)
    requires Fit(t)
    requires Lists(order, options.Keys)
    requires forall a, b :: a in options && b in options ==> !Collide(t, a, b)
    ensures forall k :: k in options ==> Get(SplitInOrder(t, options, order), PlaceOf(t, k)) == Some(options[k])
    ensures forall p :: Get(SplitInOrder(t, options, order), p).Some? ==> exists k :: k in options && PlaceOf(t, k) == p
  {
    forall k | k in options
      ensures Get(SplitInOrder(t, options, order), PlaceOf(t, k)) == Some(options[k])
    {
      LastWins(t, options, order, PlaceOf(t, k));
      LastToHolds(t, order, PlaceOf(t, k));
      assert k in order;
      var last := LastTo(t, order, PlaceOf(t, k)).value;
      if last != k {
        SharedPlace(t, last, k);
      }
    }
    forall p | Get(SplitInOrder(t, options, order), p).Some?
      ensures exists k :: k in options && PlaceOf(t, k) == p
    {
      LastWins(t, options, order, p);
      LastToHolds(t, order, p);
    }
  }

  /** Two options collide and disagree. */
  predicate Ambiguous(t: Wires, options: map<string, Value>) {
    exists a, b :: a in options && b in options && Collide(t, a, b) && options[a] != options[b]
  }

  ghost predicate OrderMatters(t: Wires, options: map<string, Value>) {
    exists a, b :: Lists(a, options.Keys) && Lists(b, options.Keys)
                   && SplitInOrder(t, options, a) != SplitInOrder(t, options, b)
  }

  /** The result depends on the order of iteration exactly if two options collide and disagree. */
  lemma OrderMattersExactly(t: Wires, options: map<string, Value>, order: seq<string>)
    requires Fit(t)
    requires Lists(order, options.Keys)
    ensures OrderMatters(t, options) <==> Ambiguous(t, options)
  {
    if Ambiguous(t, options) {
      var a, b :| a in options && b in options && Collide(t, a, b) && options[a] != options[b];
      CollidingOrders(t, options, order, a, b);
    }
    if !Ambiguous(t, options) {
      forall a, b | Lists(a, options.Keys) && Lists(b, options.Keys)
        ensures SplitInOrder(t, options, a) == SplitInOrder(t, options, b)
      {
        AgreeingOrders(t, options, a, b);
      }
    }
  }

  lemma AgreeingOrders(t: Wires, options: map<string, Value>, a: seq<string>, b: seq<string>)
    requires Fit(t)
    requires Lists(a, options.Keys) && Lists(b, options.Keys) && !Ambiguous(t, options)
    ensures SplitInOrder(t, options, a) == SplitInOrder(t, options, b)
  {
    forall p
      ensures Get(SplitInOrder(t, options, a), p) == Get(SplitInOrder(t, options, b), p)
    {
      AgreeAt(t, options, a, b, p);
    }
    SameBuckets(SplitInOrder(t, options, a), SplitInOrder(t, options, b));
  }

  lemma AgreeAt(t: Wires, options: map<string, Value>, a: seq<string>, b: seq<string>, p: Place)
    requires Fit(t)
    requires Lists(a, options.Keys) && Lists(b, options.Keys) && !Ambiguous(t, options)
    ensures Get(SplitInOrder(t, options, a), p) == Get(SplitInOrder(t, options, b), p)
  {
    LastWins(t, options, a, p);
    LastWins(t, options, b, p);
    LastToHolds(t, a, p);
    LastToHolds(t, b, p);
    assert forall k :: k in a <==> k in b;
    if LastTo(t, a, p).Some? && LastTo(t, b, p).Some? && LastTo(t, a, p) != LastTo(t, b, p) {
      SharedPlace(t, LastTo(t, a, p).value, LastTo(t, b, p).value);
    }
  }

  /** The list without two of its strings. */
  function Without(order: seq<string>, a: string, b: string): (rest: seq<string>)
    ensures forall k :: k in rest <==> k in order && k != a && k != b
  {
    if order == [] then []
    else
      var last := order[|order| - 1];
      assert order == order[..|order| - 1] + [last];
      Without(order[..|order| - 1], a, b) + if last == a || last == b then [] else [last]
  }

  lemma {:induction false} WithoutIsDistinct(order: seq<string>, a: string, b: string)
    requires Distinct(order)
    ensures Distinct(Without(order, a, b))
  {
    if order != [] {
      var rest := Without(order[..|order| - 1], a, b);
      WithoutIsDistinct(order[..|order| - 1], a, b);
      forall i | 0 <= i < |rest|
        ensures rest[i] != order[|order| - 1]
      {
        assert rest[i] in rest;
      }
    }
  }

  lemma CollidingOrders(t: Wires, options: map<string, Value>, order: seq<string>, a: string, b: string)
    requires Lists(order, options.Keys) && a in options && b in options && Collide(t, a, b) && options[a] != options[b]
    ensures OrderMatters(t, options)
  {
    var rest := Without(order, a, b);
    WithoutIsDistinct(order, a, b);
    EndsWith(t, options, rest, a, b);
    EndsWith(t, options, rest, b, a);
  }

  lemma EndsWith(t: Wires, options: map<string, Value>, rest: seq<string>, a: string, b: string)
    requires Distinct(rest) && a != b && a in options && b in options
    requires forall k :: k in rest <==> k in options && k != a && k != b
    ensures Lists(rest + [a, b], options.Keys)
    ensures Get(SplitInOrder(t, options, rest + [a, b]), PlaceOf(t, b)) == Some(options[b])
  {
    var order := rest + [a, b];
    assert order[|order| - 1] == b;
  }

  // ----- options of the backend -----

  /** The backend options among all, with their values. */
  function BackendOf(t: Wires, options: map<string, Value>): map<string, Value> {
    map k | k in options && k in t.backend :: options[k]
  }

  /** The backend bucket holds the backend options, whatever else collides. */
  lemma BackendIsKept(t: Wires, options: map<string, Value>, order: seq<string>)
    requires Lists(order, options.Keys)
    ensures SplitInOrder(t, options, order).backend == BackendOf(t, options)
  {
    forall k
      ensures At(SplitInOrder(t, options, order).backend, k) == At(BackendOf(t, options), k)
    {
      var p := Place(BackendBucket, k);
      LastWins(t, options, order, p);
      assert Get(SplitInOrder(t, options, order), p) == At(SplitInOrder(t, options, order).backend, k);
      LastToHolds(t, order, p);
      if k in BackendOf(t, options) {
        assert k in order && PlaceOf(t, k) == p;
      }
    }
    SameMap(SplitInOrder(t, options, order).backend, BackendOf(t, options));
  }

  /**
   Where an option goes, told by the three maps: a backend option is kept under its own name among those of the
   backend, a filter rule under its field among the rules, a global option under its field among the global ones, and
   so is, under its own name, one that no table knows.
   */
  lemma SoleOption(t: Wires, k: string, v: Value)
    ensures var b := SplitInOrder(t, map[k := v], [k]);
            b == if k in t.backend then Buckets(map[], map[], map[k := v])
                 else if Find(t.filter, k) != None then Buckets(map[], map[Find(t.filter, k).value := v], map[])
                 else if Find(t.config, k) != None then Buckets(map[Find(t.config, k).value := v], map[], map[])
                 else Buckets(map[k := v], map[], map[])
  {
    assert [k][..0] == [];
  }

  datatype Overrides = Overrides(src: map<string, string>, dst: map<string, string>) | UnknownOption | BadOptionValue

  predicate Encodes(t: Wires, backend: map<string, Value>) {
    forall k :: k in backend ==> k in t.backend && EncodeOverrideValue(backend[k]).Some?
  }

  /** The options of one side, as text. */
  ghost predicate IsSide(t: Wires, m: map<string, string>, backend: map<string, Value>, side: Side) {
    && (forall k :: k in m <==> k in backend && k in t.backend && t.backend[k].side == side)
    && (forall k :: k in m && k in backend ==> Some(m[k]) == EncodeOverrideValue(backend[k]))
  }

  /** Each backend option goes, under its own name, to the side that the table gives for it. */
  method SplitBackendOverrides(t: Wires, backend: map<string, Value>, order: seq<string>) returns (r: Overrides)
    requires Fit(t) && Lists(order, backend.Keys)
    ensures r.Overrides? <==> Encodes(t, backend)
    ensures r.Overrides? ==> IsSide(t, r.src, backend, SrcSide) && IsSide(t, r.dst, backend, DstSide)
    ensures r.UnknownOption? ==> exists k :: k in backend && k !in t.backend
  {
    var src: map<string, string>, dst: map<string, string> := map[], map[];
    for i := 0 to |order|
      invariant forall j :: 0 <= j < i ==> order[j] in t.backend && EncodeOverrideValue(backend[order[j]]).Some?
      invariant forall k :: k in src <==> k in order[..i] && k in t.backend && t.backend[k].side == SrcSide
      invariant forall k :: k in dst <==> k in order[..i] && k in t.backend && t.backend[k].side == DstSide
      invariant forall k :: k in src && k in backend ==> Some(src[k]) == EncodeOverrideValue(backend[k])
      invariant forall k :: k in dst && k in backend ==> Some(dst[k]) == EncodeOverrideValue(backend[k])
    {
      var k := order[i];
      assert k in backend;
      if k !in t.backend {
        return UnknownOption;
      }
      var opt := t.backend[k];
      var val := EncodeOverrideValue(backend[k]);
      if val.None? {
        return BadOptionValue;
      }
      if opt.side == SrcSide {
        src := src[opt.name := val.value];
      } else {
        dst := dst[opt.name := val.value];
      }
      assert order[..i + 1] == order[..i] + [k];
    }
    assert order[..|order|] == order;
    r := Overrides(src, dst);
  }

  // ----- submission -----

  datatype Submission =
    | Submission(src: string, dst: string, config: map<string, Value>, filter: map<string, Value>)
    | InvalidOptions

  // The orders in which the maps on the way happen to be iterated over.
  datatype Orders = Orders(options: seq<string>, backend: seq<string>, src: seq<string>, dst: seq<string>)

  /** The names of the backend options of one side. */
  function SideKeys(t: Wires, options: map<string, Value>, side: Side): set<string> {
    set k | k in options && k in t.backend && t.backend[k].side == side
  }

  /** Reading a side's path back gives its remote, its path, and exactly that side's backend options. */
  ghost predicate Carries(spec: string, t: Wires, fs: string, options: map<string, Value>, side: Side) {
    match CutAt(fs, ':')
    case NoSeparator => spec == fs
    case Cut(remote, path) =>
      if SideKeys(t, options, side) == {} || !ValidRemoteName(remote) then spec == fs
      else
        var d := Decode(spec);
        && d.Decoded? && d.remote == remote && d.path == path
        && (forall i :: 0 <= i < |d.items| ==>
              && d.items[i].0 in SideKeys(t, options, side)
              && EncodeOverrideValue(options[d.items[i].0]) == Some(d.items[i].1))
        && (forall k :: k in SideKeys(t, options, side) ==> exists i :: 0 <= i < |d.items| && d.items[i].0 == k)
        && (forall i, j :: 0 <= i < j < |d.items| ==> Less(d.items[i].0, d.items[j].0))
  }

  /**
   What StartSync sends for its options: refused exactly if a backend option has a value that
   cannot be written; else each side's path carries its backend options and the others are sent beside.
   */
  method Prepare(t: Wires, srcFs: string, dstFs: string, options: map<string, Value>, orders: Orders)
    returns (r: Submission)
    requires Fit(t) && Lists(orders.options, options.Keys) && Lists(orders.backend, BackendOf(t, options).Keys)
    requires Lists(orders.src, SideKeys(t, options, SrcSide)) && Lists(orders.dst, SideKeys(t, options, DstSide))
    ensures r.InvalidOptions? <==> !Encodes(t, BackendOf(t, options))
    ensures r.Submission? ==>
              && r.config == SplitInOrder(t, options, orders.options).config
              && r.filter == SplitInOrder(t, options, orders.options).filter
    ensures r.Submission? ==> Carries(r.src, t, srcFs, options, SrcSide) && Carries(r.dst, t, dstFs, options, DstSide)
  {
    assert orders.options != [] ==> orders.options[0] in options.Keys;
    if |options| == 0 {
      assert options == map[];
      return Submission(srcFs, dstFs, map[], map[]);
    }
    var config, filter, backend := SplitRcloneOptions(t, options, orders.options);
    BackendIsKept(t, options, orders.options);
    var overrides := SplitBackendOverrides(t, backend, orders.backend);
    if !overrides.Overrides? {
      return InvalidOptions;
    }
    SideIsCarried(t, srcFs, options, SrcSide, overrides.src, orders.src);
    SideIsCarried(t, dstFs, options, DstSide, overrides.dst, orders.dst);
    var srcSpec := BuildFsSpec(srcFs, overrides.src, orders.src);
    if srcSpec.BadValue? {
      return InvalidOptions;
    }
    var dstSpec := BuildFsSpec(dstFs, overrides.dst, orders.dst);
    if dstSpec.BadValue? {
      return InvalidOptions;
    }
    r := Submission(srcSpec.text, dstSpec.text, config, filter);
  }

  lemma SideIsCarried(t: Wires, fs: string, options: map<string, Value>, side: Side, m: map<string, string>, order: seq<string>)
    requires Fit(t) && IsSide(t, m, BackendOf(t, options), side) && Encodes(t, BackendOf(t, options))
    requires Lists(order, SideKeys(t, options, side))
    ensures m.Keys == SideKeys(t, options, side) && Lists(Sort(order), m.Keys)
    ensures Printed(fs, m, Sort(order)).Spec? && Carries(Printed(fs, m, Sort(order)).text, t, fs, options, side)
  {
    SideKeysAre(t, options, side, m);
    var keys := Sort(order);
    SpecRoundTrip(fs, m, order);
    SortHolds(order);
    ItemsAre(m, keys);
    ItemsCarry(t, options, side, m, keys);
  }

  lemma SideKeysAre(t: Wires, options: map<string, Value>, side: Side, m: map<string, string>)
    requires Fit(t) && IsSide(t, m, BackendOf(t, options), side) && Encodes(t, BackendOf(t, options))
    ensures m.Keys == SideKeys(t, options, side) && AllPlain(m) && forall k :: k in m ==> SafeKey(k)
    ensures forall k :: k in m ==> k in options && EncodeOverrideValue(options[k]) == Some(m[k])
  {
  }

  lemma ItemsCarry(t: Wires, options: map<string, Value>, side: Side, m: map<string, string>, keys: seq<string>)
    requires m.Keys == SideKeys(t, options, side) && Lists(keys, m.Keys) && Ascending(keys)
    requires forall k :: k in m ==> k in options && EncodeOverrideValue(options[k]) == Some(m[k])
    ensures var items := Pairs(m, keys);
            && (forall i :: 0 <= i < |items| ==>
                  && items[i].0 in SideKeys(t, options, side)
                  && EncodeOverrideValue(options[items[i].0]) == Some(items[i].1))
            && (forall k :: k in SideKeys(t, options, side) ==> exists i :: 0 <= i < |items| && items[i].0 == k)
            && (forall i, j :: 0 <= i < j < |items| ==> Less(items[i].0, items[j].0))
  {
    ItemsAre(m, keys);
    var items := Pairs(m, keys);
    forall i | 0 <= i < |items|
      ensures items[i].0 in m && EncodeOverrideValue(options[items[i].0]) == Some(items[i].1)
    {
      assert keys[i] in keys;
    }
    forall k | k in SideKeys(t, options, side)
      ensures exists i :: 0 <= i < |items| && items[i].0 == k
    {
      assert k in keys;
      var i :| 0 <= i < |keys| && keys[i] == k;
      assert items[i].0 == k;
    }
  }

  /** With rclone's own table the source path is sent as it is: every backend option belongs to the destination. */
  lemma SourceIsUntouched(spec: string, fs: string, options: map<string, Value>)
    requires Carries(spec, RCLONE, fs, options, SrcSide)
    ensures spec == fs
  {
    assert SideKeys(RCLONE, options, SrcSide) == {};
  }
}

/** Options of a backend written into a remote's path: "remote,key=value,...:path". */
module FsSpec {
  import opened Options
  import opened Text

  // ----- the order of keys -----

  predicate Less(a: string, b: string) {
    b != "" && (a == "" || a[0] < b[0] || (a[0] == b[0] && Less(a[1..], b[1..])))
  }

  predicate Ascending(s: seq<string>) {
    forall i, j :: 0 <= i < j < |s| ==> Less(s[i], s[j])
  }

  lemma {:induction false} LessIsTotal(a: string, b: string)
    ensures Less(a, b) || a == b || Less(b, a)
    ensures !(Less(a, b) && Less(b, a)) && !Less(a, a)
  {
    if a != "" && b != "" {
      LessIsTotal(a[1..], b[1..]);
      LessIsTotal(a[1..], a[1..]);
      assert a == [a[0]] + a[1..] && b == [b[0]] + b[1..];
    } else if a != "" {
      LessIsTotal(a[1..], a[1..]);
    }
  }

  lemma {:induction false} LessIsTransitive(a: string, b: string, c: string)
    requires Less(a, b) && Less(b, c)
    ensures Less(a, c)
  {
    if a != "" && a[0] == b[0] && b[0] == c[0] {
      LessIsTransitive(a[1..], b[1..], c[1..]);
    }
  }

  function Insert(s: seq<string>, x: string): seq<string> {
    if s == [] then [x]
    else if Less(x, s[0]) then [x] + s
    else [s[0]] + Insert(s[1..], x)
  }

  /** The strings in ascending order. */
  function Sort(s: seq<string>): seq<string> {
    if s == [] then [] else Insert(Sort(s[..|s| - 1]), s[|s| - 1])
  }

  lemma {:induction false} InsertHolds(s: seq<string>, x: string)
    ensures forall y :: y in Insert(s, x) <==> y == x || y in s
    ensures Ascending(s) && x !in s ==> Ascending(Insert(s, x))
  {
    if s != [] && !Less(x, s[0]) {
      InsertHolds(s[1..], x);
      var rest := Insert(s[1..], x);
      assert s == [s[0]] + s[1..];
      if Ascending(s) && x !in s {
        LessIsTotal(x, s[0]);
        forall j | 0 <= j < |rest|
          ensures Less(s[0], rest[j])
        {
          assert rest[j] in rest;
          if rest[j] in s[1..] {
            var i :| 0 <= i < |s[1..]| && s[1..][i] == rest[j];
            assert s[i + 1] == rest[j];
          }
        }
      }
    } else if s != [] && Ascending(s) {
      forall j | 0 <= j < |s|
        ensures Less(x, s[j])
      {
        if j > 0 {
          LessIsTransitive(x, s[0], s[j]);
        }
      }
    }
  }

  predicate Distinct(s: seq<string>) {
    forall i, j :: 0 <= i < j < |s| ==> s[i] != s[j]
  }

  lemma {:induction false} SortHolds(s: seq<string>)
    requires Distinct(s)
    ensures Ascending(Sort(s)) && forall y :: y in Sort(s) <==> y in s
  {
    if s != [] {
      var front, last := s[..|s| - 1], s[|s| - 1];
      SortHolds(front);
      InsertHolds(Sort(front), last);
      assert s == front + [last];
    }
  }

  lemma FirstOnce(a: seq<string>)
    requires Ascending(a) && a != []
    ensures a[0] !in a[1..]
  {
    LessIsTotal(a[0], a[0]);
  }

  /** Two ascending lists of the same strings are the same list. */
  lemma {:induction false} AscendingIsUnique(a: seq<string>, b: seq<string>)
    requires Ascending(a) && Ascending(b) && forall y :: y in a <==> y in b
    ensures a == b
  {
    assert b != [] ==> b[0] in b;
    if a != [] {
      assert a[0] in a && a[0] in b && b[0] in b && b[0] in a;
      LessIsTotal(a[0], b[0]);
      assert a[0] == b[0];
      FirstOnce(a);
      FirstOnce(b);
      assert a == [a[0]] + a[1..] && b == [b[0]] + b[1..];
      forall y
        ensures y in a[1..] <==> y in b[1..]
      {
        assert y in a <==> y == a[0] || y in a[1..];
        assert y in b <==> y == b[0] || y in b[1..];
      }
      AscendingIsUnique(a[1..], b[1..]);
      assert a == [a[0]] + a[1..] && b == [b[0]] + b[1..];
    }
  }

  // ----- values and names -----

  // A floating-point value is given by its shortest decimal text.
  datatype Value = Str(text: string) | Bool(b: bool) | Int(i: int) | Float(decimal: string) | Unsupported

  predicate IsAlphanumeric(c: char) {
    'a' <= c <= 'z' || 'A' <= c <= 'Z' || IsDigit(c)
  }

  predicate Whitelisted(c: char) {
    IsAlphanumeric(c) || c == '.' || c == '_' || c == '+' || c == '-'
  }

  predicate IsPlain(s: string) {
    s != "" && forall i :: 0 <= i < |s| ==> Whitelisted(s[i])
  }

  function Written(v: Value): Option<string> {
    match v
    case Str(text) => Some(text)
    case Bool(b) => Some(if b then "true" else "false")
    case Int(i) => Some(if i < 0 then "-" + Decimal(-i) else Decimal(i))
    case Float(decimal) => Some(decimal)
    case Unsupported => None
  }

  /** The value as text that cannot be confused with the separators, if it has such a text. */
  function EncodeOverrideValue(v: Value): (r: Option<string>)
    ensures r.Some? ==> IsPlain(r.value) && ',' !in r.value && '=' !in r.value && ':' !in r.value
  {
    match Written(v)
    case None => None
    case Some(text) => if IsPlain(text) then Some(text) else None
  }

  predicate ValidRemoteName(name: string) {
    |name| >= 2 && forall i :: 0 <= i < |name| ==> IsAlphanumeric(name[i]) || name[i] == '_' || name[i] == '-'
  }

  // ----- building -----

  datatype Built = Spec(text: string) | BadValue

  function Items(overrides: map<string, string>, keys: seq<string>): seq<string>
    requires forall k :: k in keys ==> k in overrides
  {
    if keys == [] then [] else [keys[0] + "=" + overrides[keys[0]]] + Items(overrides, keys[1..])
  }

  /** A listing of a map's keys, as iteration may produce it. */
  ghost predicate Lists(keys: seq<string>, m: set<string>) {
    Distinct(keys) && forall k :: k in keys <==> k in m
  }

  predicate AllPlain(overrides: map<string, string>) {
    forall k :: k in overrides ==> IsPlain(overrides[k])
  }

  /** The spec, for the keys in the order in which they are written. */
  function Printed(fs: string, overrides: map<string, string>, keys: seq<string>): Built
    requires forall k :: k in keys ==> k in overrides
  {
    if overrides == map[] then Spec(fs)
    else if !AllPlain(overrides) then BadValue
    else
      match CutAt(fs, ':')
      case NoSeparator => Spec(fs)
      case Cut(remote, path) =>
        if !ValidRemoteName(remote) then Spec(fs)
        else Spec(Join([remote] + Items(overrides, keys), ',') + ":" + path)
  }

  /** The listing does not matter: the keys are written in ascending order. */
  lemma OrderDoesNotMatter(fs: string, overrides: map<string, string>, a: seq<string>, b: seq<string>)
    requires Lists(a, overrides.Keys) && Lists(b, overrides.Keys)
    ensures Lists(Sort(a), overrides.Keys) && Lists(Sort(b), overrides.Keys)
    ensures Printed(fs, overrides, Sort(a)) == Printed(fs, overrides, Sort(b))
  {
    SortHolds(a);
    SortHolds(b);
    AscendingIsUnique(Sort(a), Sort(b));
    forall i, j | 0 <= i < j < |Sort(a)|
      ensures Sort(a)[i] != Sort(a)[j]
    {
      LessIsTotal(Sort(a)[i], Sort(a)[i]);
    }
  }

  lemma {:induction false} JoinAppend(parts: seq<string>, sep: char, part: string)
    requires parts != []
    ensures Join(parts + [part], sep) == Join(parts, sep) + [sep] + part
  {
    if |parts| > 1 {
      JoinAppend(parts[1..], sep, part);
      assert (parts + [part])[1..] == parts[1..] + [part];
    }
  }

  lemma {:induction false} ItemsAppend(overrides: map<string, string>, keys: seq<string>, k: string)
    requires forall x :: x in keys + [k] ==> x in overrides
    ensures forall x :: x in keys ==> x in overrides
    ensures Items(overrides, keys + [k]) == Items(overrides, keys) + [k + "=" + overrides[k]]
  {
    assert forall x :: x in keys ==> x in keys + [k];
    if keys == [] {
      assert k in [k] && ([] + [k])[1..] == [];
    } else {
      assert (keys + [k])[1..] == keys[1..] + [k];
      assert forall x :: x in keys[1..] + [k] ==> x in keys + [k];
      ItemsAppend(overrides, keys[1..], k);
    }
  }

  lemma OneMoreItem(remote: string, overrides: map<string, string>, keys: seq<string>, i: nat)
    requires i < |keys| && forall k :: k in keys ==> k in overrides
    ensures Join([remote] + Items(overrides, keys[..i + 1]), ',')
            == Join([remote] + Items(overrides, keys[..i]), ',') + "," + keys[i] + "=" + overrides[keys[i]]
  {
    var item := keys[i] + "=" + overrides[keys[i]];
    assert keys[..i + 1] == keys[..i] + [keys[i]];
    ItemsAppend(overrides, keys[..i], keys[i]);
    JoinAppend([remote] + Items(overrides, keys[..i]), ',', item);
    assert [remote] + Items(overrides, keys[..i + 1]) == [remote] + Items(overrides, keys[..i]) + [item];
  }

  method Write(remote: string, overrides: map<string, string>, keys: seq<string>) returns (b: string)
    requires forall k :: k in keys ==> k in overrides
    ensures b == Join([remote] + Items(overrides, keys), ',')
  {
    b := remote;
    for i := 0 to |keys|
      invariant b == Join([remote] + Items(overrides, keys[..i]), ',')
    {
      OneMoreItem(remote, overrides, keys, i);
      b := b + "," + keys[i] + "=" + overrides[keys[i]];
    }
    assert keys[..|keys|] == keys;
  }

  /** `order` is how the map happens to be iterated over. */
  method BuildFsSpec(fs: string, overrides: map<string, string>, order: seq<string>) returns (r: Built)
    requires Lists(order, overrides.Keys)
    ensures Lists(Sort(order), overrides.Keys) && r == Printed(fs, overrides, Sort(order))
  {
    OrderDoesNotMatter(fs, overrides, order, order);
    if |order| == 0 {
      assert overrides == map[];
      return Spec(fs);
    }
    assert order[0] in overrides;
    for i := 0 to |order|
      invariant forall j :: 0 <= j < i ==> IsPlain(overrides[order[j]])
    {
      var value := EncodeOverrideValue(Str(overrides[order[i]]));
      if value.None? {
        assert !IsPlain(overrides[order[i]]);
        return BadValue;
      }
    }
    var cut := CutAt(fs, ':');
    if cut.NoSeparator? || !ValidRemoteName(cut.before) {
      return Spec(fs);
    }
    var b := Write(cut.before, overrides, Sort(order));
    return Spec(b + ":" + cut.after);
  }

  // ----- reading it back -----

  datatype Decoded = Decoded(remote: string, items: seq<(string, string)>, path: string) | NoRemote

  // An option without a value stands for "true".
  function DecodeItem(item: string): (string, string) {
    match CutAt(item, '=')
    case Cut(key, value) => (key, value)
    case NoSeparator => (item, "true")
  }

  function DecodeItems(items: seq<string>): (pairs: seq<(string, string)>)
    ensures |pairs| == |items|
  {
    if items == [] then [] else [DecodeItem(items[0])] + DecodeItems(items[1..])
  }

  /** Cuts at the first colon, splits by commas, and cuts each option at its first equals sign. */
  function Decode(text: string): Decoded {
    match CutAt(text, ':')
    case NoSeparator => NoRemote
    case Cut(head, path) =>
      var parts := Split(head, ',');
      Decoded(parts[0], DecodeItems(parts[1..]), path)
  }

  function Pairs(overrides: map<string, string>, keys: seq<string>): seq<(string, string)>
    requires forall k :: k in keys ==> k in overrides
  {
    if keys == [] then [] else [(keys[0], overrides[keys[0]])] + Pairs(overrides, keys[1..])
  }

  predicate SafeKey(k: string) {
    ',' !in k && '=' !in k && ':' !in k
  }

  lemma {:induction false} JoinAvoids(parts: seq<string>, sep: char, c: char)
    requires c != sep
    ensures c !in Join(parts, sep) <==> forall i :: 0 <= i < |parts| ==> c !in parts[i]
  {
    if |parts| > 1 {
      JoinAvoids(parts[1..], sep, c);
      assert forall i :: 0 < i < |parts| ==> parts[i] == parts[1..][i - 1];
      assert c in Join(parts, sep) <==> c in parts[0] || c in Join(parts[1..], sep);
    }
  }

  lemma {:induction false} ItemsAre(overrides: map<string, string>, keys: seq<string>)
    requires forall k :: k in keys ==> k in overrides
    ensures |Items(overrides, keys)| == |keys| == |Pairs(overrides, keys)|
    ensures forall i :: 0 <= i < |keys| ==> Items(overrides, keys)[i] == keys[i] + "=" + overrides[keys[i]]
    ensures forall i :: 0 <= i < |keys| ==> Pairs(overrides, keys)[i] == (keys[i], overrides[keys[i]])
  {
    if keys != [] {
      ItemsAre(overrides, keys[1..]);
    }
  }

  lemma {:induction false} DecodeItemsAre(items: seq<string>)
    ensures forall i :: 0 <= i < |items| ==> DecodeItems(items)[i] == DecodeItem(items[i])
  {
    if items != [] {
      DecodeItemsAre(items[1..]);
    }
  }

  lemma PlainAvoids(s: string)
    requires IsPlain(s) || ValidRemoteName(s)
    ensures ',' !in s && '=' !in s && ':' !in s
  {
  }

  lemma ItemDecodes(key: string, value: string)
    requires SafeKey(key) && IsPlain(value)
    ensures var item := key + "=" + value;
            ',' !in item && ':' !in item && DecodeItem(item) == (key, value)
  {
    PlainAvoids(value);
    CutAtFirst(key, '=', value);
  }

  /** Whatever the path, colons included, the spec gives back remote, options and path if no key holds a separator. */
  lemma SafeKeysDecode(remote: string, overrides: map<string, string>, keys: seq<string>, path: string)
    requires ValidRemoteName(remote) && AllPlain(overrides) && Lists(keys, overrides.Keys)
    requires forall k :: k in overrides ==> SafeKey(k)
    ensures Decode(Join([remote] + Items(overrides, keys), ',') + ":" + path)
            == Decoded(remote, Pairs(overrides, keys), path)
  {
    var items := Items(overrides, keys);
    var parts := [remote] + items;
    ItemsAre(overrides, keys);
    PlainAvoids(remote);
    forall i | 0 <= i < |keys|
      ensures ',' !in items[i] && ':' !in items[i] && DecodeItem(items[i]) == (keys[i], overrides[keys[i]])
    {
      assert keys[i] in overrides;
      ItemDecodes(keys[i], overrides[keys[i]]);
    }
    assert forall i :: 0 < i < |parts| ==> parts[i] == items[i - 1];
    JoinAvoids(parts, ',', ':');
    CutAtFirst(Join(parts, ','), ':', path);
    SplitJoin(parts, ',');
    assert parts[1..] == items;
    DecodeItemsAre(items);
    assert DecodeItems(items) == Pairs(overrides, keys);
  }

  // ----- a key with a separator is lost -----

  lemma {:induction false} JoinCounts(parts: seq<string>, sep: char)
    requires parts != []
    ensures Count(Join(parts, sep), sep) >= |parts| - 1
    ensures Count(Join(parts, sep), sep) == |parts| - 1 ==> forall i :: 0 <= i < |parts| ==> sep !in parts[i]
  {
    CountIsZero(parts[0], sep);
    if |parts| > 1 {
      var rest := Join(parts[1..], sep);
      JoinCounts(parts[1..], sep);
      CountConcat(parts[0] + [sep], rest, sep);
      CountConcat(parts[0], [sep], sep);
      assert [sep][1..] == "";
      assert forall i :: 0 < i < |parts| ==> parts[i] == parts[1..][i - 1];
    }
  }

  /** What the text says of its first part, if it is decoded to this remote and this path. */
  lemma DecodedHead(head: string, path: string, remote: string, pairs: seq<(string, string)>)
    requires Decode(head + ":" + path) == Decoded(remote, pairs, path)
    ensures ':' !in head && DecodeItems(Split(head, ',')[1..]) == pairs
  {
    var text := head + ":" + path;
    CutIsInverse(text, ':');
    var before := CutAt(text, ':').before;
    assert |before| == |head|;
    assert before == text[..|head|] == head;
  }

  /** As many pieces as were joined, so none of them holds the separator. */
  lemma SplitBack(parts: seq<string>)
    requires parts != [] && |Split(Join(parts, ','), ',')| == |parts|
    ensures Split(Join(parts, ','), ',') == parts && forall i :: 0 <= i < |parts| ==> ',' !in parts[i]
  {
    SplitCounts(Join(parts, ','), ',');
    JoinCounts(parts, ',');
    SplitJoin(parts, ',');
  }

  lemma DecodedKeyIsSafe(key: string, value: string)
    requires DecodeItem(key + "=" + value) == (key, value) && ',' !in key + "=" + value && ':' !in key + "=" + value
    ensures SafeKey(key)
  {
    var item := key + "=" + value;
    CutIsInverse(item, '=');
    assert item[|key|] == '=';
    assert forall c :: c in key ==> c in item;
  }

  lemma DecodedKeysAreSafe(remote: string, overrides: map<string, string>, keys: seq<string>, path: string)
    requires ValidRemoteName(remote) && AllPlain(overrides) && Lists(keys, overrides.Keys)
    requires Decode(Join([remote] + Items(overrides, keys), ',') + ":" + path)
             == Decoded(remote, Pairs(overrides, keys), path)
    ensures forall k :: k in overrides ==> SafeKey(k)
  {
    var items := Items(overrides, keys);
    var parts := [remote] + items;
    ItemsAre(overrides, keys);
    DecodedHead(Join(parts, ','), path, remote, Pairs(overrides, keys));
    SplitBack(parts);
    JoinAvoids(parts, ',', ':');
    assert parts[1..] == items;
    DecodeItemsAre(items);
    forall k | k in overrides
      ensures SafeKey(k)
    {
      var i :| 0 <= i < |keys| && keys[i] == k;
      assert parts[i + 1] == items[i] == k + "=" + overrides[k];
      DecodedKeyIsSafe(k, overrides[k]);
    }
  }

  /**
   What BuildFsSpec does, told by its result: nothing without overrides, without a colon or without a
   valid remote; an error exactly for a value outside the whitelist; else a text from which remote,
   options and path are read back, exactly if no key holds a separator.
   */
  lemma SpecRoundTrip(fs: string, overrides: map<string, string>, order: seq<string>)
    requires Lists(order, overrides.Keys)
    ensures Lists(Sort(order), overrides.Keys)
    ensures var r := Printed(fs, overrides, Sort(order));
            && (r.BadValue? <==> !AllPlain(overrides))
            && (overrides == map[] ==> r == Spec(fs))
            && (r.Spec? && overrides != map[] ==>
                  match CutAt(fs, ':')
                  case NoSeparator => r.text == fs
                  case Cut(remote, path) =>
                    if !ValidRemoteName(remote) then r.text == fs
                    else Decode(r.text) == Decoded(remote, Pairs(overrides, Sort(order)), path)
                         <==> forall k :: k in overrides ==> SafeKey(k))
  {
    OrderDoesNotMatter(fs, overrides, order, order);
    var keys := Sort(order);
    match CutAt(fs, ':') {
      case NoSeparator =>
      case Cut(remote, path) =>
        if ValidRemoteName(remote) && AllPlain(overrides) {
          if forall k :: k in overrides ==> SafeKey(k) {
            SafeKeysDecode(remote, overrides, keys, path);
          } else if Decode(Join([remote] + Items(overrides, keys), ',') + ":" + path)
                    == Decoded(remote, Pairs(overrides, keys), path) {
            DecodedKeysAreSafe(remote, overrides, keys, path);
          }
        }
    }
  }

  // ----- what is never refused, and what is never a remote -----

  /** Numbers and booleans are always written, and a number is read back. */
  lemma NumbersEncode(i: int, b: bool)
    ensures EncodeOverrideValue(Int(i)).Some? && EncodeOverrideValue(Bool(b)).Some?
    ensures i >= 0 ==> AllDigits(EncodeOverrideValue(Int(i)).value) && DecimalValue(EncodeOverrideValue(Int(i)).value) == i
  {
    if i >= 0 {
      DecimalRoundTrip(i);
      assert IsPlain(Decimal(i));
    } else {
      var s := "-" + Decimal(-i);
      assert forall k :: 1 <= k < |s| ==> s[k] == Decimal(-i)[k - 1];
      assert IsPlain(s);
    }
    assert IsPlain("true") && IsPlain("false");
  }

  /** A path on a drive, "C:...", is no remote: no option is written into it. */
  lemma DriveIsLeftAlone(drive: char, rest: string, overrides: map<string, string>, keys: seq<string>)
    requires drive != ':' && AllPlain(overrides) && forall k :: k in keys ==> k in overrides
    ensures Printed([drive] + ":" + rest, overrides, keys) == Spec([drive] + ":" + rest)
  {
    CutAtFirst([drive], ':', rest);
  }

  // ----- the texts themselves -----

  /** The spec with one option, and with two, as it is written. */
  lemma OptionsAsWritten(remote: string, path: string, k: string, v: string, k2: string, v2: string)
    requires ValidRemoteName(remote) && IsPlain(v) && IsPlain(v2) && k != k2
    ensures Printed(remote + ":" + path, map[k := v], [k]) == Spec(remote + "," + k + "=" + v + ":" + path)
    ensures Printed(remote + ":" + path, map[k := v, k2 := v2], [k, k2])
            == Spec(remote + "," + k + "=" + v + "," + k2 + "=" + v2 + ":" + path)
  {
    var one, two := map[k := v], map[k := v, k2 := v2];
    PlainAvoids(remote);
    CutAtFirst(remote, ':', path);
    assert k in one && k in two && k2 in two && AllPlain(one) && AllPlain(two);
    assert Join([remote] + Items(one, [k]), ',') == remote + "," + k + "=" + v by {
      OneMoreItem(remote, one, [k], 0);
      assert [k][..1] == [k];
    }
    assert Join([remote] + Items(two, [k, k2]), ',') == remote + "," + k + "=" + v + "," + k2 + "=" + v2 by {
      OneMoreItem(remote, two, [k, k2], 0);
      OneMoreItem(remote, two, [k, k2], 1);
      assert [k, k2][..2] == [k, k2];
    }
  }

  /** What a value is written as: text as it is, if it is not empty and all its characters are allowed. */
  lemma ValuesEncode(text: string)
    ensures EncodeOverrideValue(Str(text))
            == if text != "" && (forall i :: 0 <= i < |text| ==>
                                   'a' <= text[i] <= 'z' || 'A' <= text[i] <= 'Z' || '0' <= text[i] <= '9' || text[i] in "._+-")
               then Some(text) else None
    ensures EncodeOverrideValue(Float(text)) == EncodeOverrideValue(Str(text))
    ensures EncodeOverrideValue(Bool(true)) == Some("true") && EncodeOverrideValue(Bool(false)) == Some("false")
    ensures EncodeOverrideValue(Unsupported) == None
  {
    assert forall c: char :: c in "._+-" <==> c == '.' || c == '_' || c == '+' || c == '-';
    assert IsPlain("true") && IsPlain("false");
  }

  lemma IntegersEncode(i: int)
    ensures EncodeOverrideValue(Int(i)) == Some(if i < 0 then "-" + Decimal(-i) else Decimal(i))
  {
    NumbersEncode(i, true);
  }

  /** A remote's name has two characters at least, letters, digits, underscores and hyphens. */
  lemma RemoteNames(name: string)
    ensures ValidRemoteName(name)
            <==> |name| > 1 && forall i :: 0 <= i < |name| ==>
                   'a' <= name[i] <= 'z' || 'A' <= name[i] <= 'Z' || '0' <= name[i] <= '9' || name[i] in "_-"
  {
    assert forall c: char :: c in "_-" <==> c == '_' || c == '-';
  }

  /** The order is that of the first character that differs, and a text comes behind its beginnings. */
  lemma {:induction false} LessIsLexicographic(a: string, b: string)
    ensures Less(a, b) <==> exists i :: Precedes(a, b, i)
  {
    if b == "" {
      assert forall i :: !Precedes(a, b, i);
    } else if a == "" {
      assert Precedes(a, b, 0);
    } else if a[0] == b[0] {
      LessIsLexicographic(a[1..], b[1..]);
      assert a == [a[0]] + a[1..] && b == [b[0]] + b[1..];
      if Less(a[1..], b[1..]) {
        var i :| Precedes(a[1..], b[1..], i);
        assert Precedes(a, b, i + 1);
      }
      if exists i :: Precedes(a, b, i) {
        var i :| Precedes(a, b, i);
        assert a[..i][0] == b[..i][0] || i == 0;
        assert Precedes(a[1..], b[1..], i - 1) by {
          assert a[1..][..i - 1] == a[..i][1..] == b[..i][1..] == b[1..][..i - 1];
        }
      }
    } else {
      if a[0] < b[0] {
        assert Precedes(a, b, 0);
      }
      forall i | Precedes(a, b, i)
        ensures a[0] < b[0]
      {
        assert i > 0 ==> a[..i][0] == b[..i][0];
      }
    }
  }

  /** The texts agree before `i`, where the first one ends or has the smaller character. */
  predicate Precedes(a: string, b: string, i: int) {
    0 <= i <= |a| && i < |b| && a[..i] == b[..i] && (i == |a| || a[i] < b[i])
  }
}

/** The names under which rclone takes its options. */
module RcloneWire {
  import opened Options
  import opened FsSpec

  // Option and field, by the length of the field's name, then by its letters.
  const CONFIG: seq<(string, string)> := [
    ("dry_run", "DryRun"), ("suffix", "Suffix"), ("bwlimit", "BwLimit"), ("order_by", "OrderBy"),
    ("retries", "Retries"), ("checksum", "CheckSum"), ("checkers", "Checkers"), ("max_depth", "MaxDepth"),
    ("metadata", "Metadata"), ("size_only", "SizeOnly"), ("tpslimit", "TPSLimit"), ("fast_list", "UseListR"),
    ("backup_dir", "BackupDir"), ("immutable", "Immutable"), ("max_delete", "MaxDelete"),
    ("transfers", "Transfers"), ("buffer_size", "BufferSize"), ("check_first", "CheckFirst"),
    ("ignore_size", "IgnoreSize"), ("no_traverse", "NoTraverse"), ("bwlimit_file", "BwLimitFile"),
    ("ignore_times", "IgnoreTimes"), ("max_transfer", "MaxTransfer"), ("no_check_dest", "NoCheckDest"),
    ("update", "UpdateOlder"), ("modify_window", "ModifyWindow"), ("track_renames", "TrackRenames"),
    ("max_delete_size", "MaxDeleteSize"), ("ignore_case_sync", "IgnoreCaseSync"),
    ("ignore_existing", "IgnoreExisting"), ("ignore_checksum", "IgnoreChecksum"),
    ("low_level_retries", "LowLevelRetries"), ("no_update_modtime", "NoUpdateModTime"),
    ("use_server_modtime", "UseServerModTime"), ("server_side_across_configs", "ServerSideAcrossConfigs")
  ]

  const FILTER: seq<(string, string)> := [
    ("max_age", "MaxAge"), ("min_age", "MinAge"), ("max_size", "MaxSize"), ("min_size", "MinSize"),
    ("files_from", "FilesFrom"), ("ignore_case", "IgnoreCase"), ("exclude_if_present", "ExcludeFile"),
    ("files_from_raw", "FilesFromRaw"), ("delete_excluded", "DeleteExcluded")
  ]

  function Find(table: seq<(string, string)>, key: string): Option<string> {
    if table == [] then None
    else if table[0].0 == key then Some(table[0].1)
    else Find(table[1..], key)
  }

  datatype Side = SrcSide | DstSide
  datatype BackendOption = BackendOption(name: string, side: Side)

  // Options of the backend, and the side whose path they are written into.
  const BACKEND: map<string, BackendOption> := map[
    "upload_cutoff" := BackendOption("upload_cutoff", DstSide),
    "disable_checksum" := BackendOption("disable_checksum", DstSide)
  ]

  datatype Wires = Wires(config: seq<(string, string)>, filter: seq<(string, string)>, backend: map<string, BackendOption>)

  const RCLONE := Wires(CONFIG, FILTER, BACKEND)

  // ----- no two options set the same field -----

  // Length, the first two letters and the last tell the field names apart.
  function Code(name: string): nat {
    if |name| < 2 then 0
    else |name| * 0x1000000 + (name[0] as nat) * 0x10000 + (name[1] as nat) * 0x100 + name[|name| - 1] as nat
  }

  ghost predicate Ordered(table: seq<(string, string)>) {
    forall i, j :: 0 <= i < j < |table| ==> Code(table[i].1) < Code(table[j].1)
  }

  lemma {:induction false} StepsOrder(table: seq<(string, string)>, i: nat, j: nat)
    requires i < j < |table| && forall k :: 0 <= k < |table| - 1 ==> Code(table[k].1) < Code(table[k + 1].1)
    ensures Code(table[i].1) < Code(table[j].1)
  {
    if i < j - 1 {
      StepsOrder(table, i, j - 1);
      assert Code(table[j - 1].1) < Code(table[j - 1 + 1].1);
    }
  }

  lemma ShortNamesAscend()
    ensures forall k :: 0 <= k < 17 ==> Code(CONFIG[k].1) < Code(CONFIG[k + 1].1)
  {
    assert |CONFIG| == 35;
  }

  lemma LongNamesAscend()
    ensures forall k :: 17 <= k < 34 ==> Code(CONFIG[k].1) < Code(CONFIG[k + 1].1)
  {
    assert |CONFIG| == 35;
  }

  lemma ConfigIsOrdered()
    ensures Ordered(CONFIG)
  {
    ShortNamesAscend();
    LongNamesAscend();
    Chain(CONFIG);
  }

  lemma Chain(table: seq<(string, string)>)
    requires forall k :: 0 <= k < |table| - 1 ==> Code(table[k].1) < Code(table[k + 1].1)
    ensures Ordered(table)
  {
    forall i, j | 0 <= i < j < |table|
      ensures Code(table[i].1) < Code(table[j].1)
    {
      StepsOrder(table, i, j);
    }
  }

  lemma FilterIsOrdered()
    ensures Ordered(FILTER)
  {
    assert forall k :: 0 <= k < 8 ==> Code(FILTER[k].1) < Code(FILTER[k + 1].1);
    Chain(FILTER);
  }

  lemma {:induction false} FindAt(table: seq<(string, string)>, key: string) returns (i: nat)
    requires Find(table, key).Some?
    ensures i < |table| && table[i] == (key, Find(table, key).value)
  {
    if table[0].0 == key {
      i := 0;
    } else {
      i := FindAt(table[1..], key);
      i := i + 1;
    }
  }

  lemma FindIsInjective(table: seq<(string, string)>, a: string, b: string)
    requires Ordered(table) && Find(table, a).Some? && Find(table, a) == Find(table, b)
    ensures a == b
  {
    var i := FindAt(table, a);
    var j := FindAt(table, b);
    assert i == j;
  }

  /** Backend options keep their names, and these are free of separators. */
  predicate KeepsNames(backend: map<string, BackendOption>) {
    forall k :: k in backend ==> backend[k].name == k && SafeKey(k)
  }

  /** What the proofs need of the tables; the fields of `config` and of `filter` are told apart. */
  ghost predicate Fit(t: Wires) {
    Ordered(t.config) && Ordered(t.filter) && KeepsNames(t.backend)
  }

  lemma BackendKeepsNames()
    ensures KeepsNames(BACKEND)
  {
    assert forall i :: 0 <= i < 13 ==> "upload_cutoff"[i] != ',' && "upload_cutoff"[i] != '=' && "upload_cutoff"[i] != ':';
    assert forall i :: 0 <= i < 16 ==>
        "disable_checksum"[i] != ',' && "disable_checksum"[i] != '=' && "disable_checksum"[i] != ':';
  }

  lemma RcloneFits()
    ensures Fit(RCLONE)
  {
    BackendKeepsNames();
    ConfigIsOrdered();
    FilterIsOrdered();
  }

  /** Different options set different fields. */
  lemma WiresAreInjective(t: Wires, a: string, b: string)
    requires Fit(t)
    ensures Find(t.config, a).Some? && Find(t.config, a) == Find(t.config, b) ==> a == b
    ensures Find(t.filter, a).Some? && Find(t.filter, a) == Find(t.filter, b) ==> a == b
  {
    if Find(t.config, a).Some? && Find(t.config, a) == Find(t.config, b) {
      FindIsInjective(t.config, a, b);
    }
    if Find(t.filter, a).Some? && Find(t.filter, a) == Find(t.filter, b) {
      FindIsInjective(t.filter, a, b);
    }
  }

  // ----- the names -----

  function Lower(c: char): char {
    if 'A' <= c <= 'Z' then c + 'a' - 'A' else c
  }

  predicate Renamed(option: string) {
    option == "fast_list" || option == "update" || option == "exclude_if_present"
  }

  /**
   A field begins and ends like its option, letter case aside, and is shorter by three underscores at most: no other
   field of the table does. Three fields have names of their own.
   */
  predicate NamedAlike(option: string, field: string) {
    Renamed(option)
    || (&& 2 <= |option| - 3 <= |field| <= |option|
        && Lower(field[0]) == option[0] && Lower(field[|field| - 2]) == option[|option| - 2]
        && Lower(field[1]) == option[1] && Lower(field[|field| - 1]) == option[|option| - 1])
  }

  lemma FirstConfigNames()
    ensures forall i :: 0 <= i < 9 ==> NamedAlike(CONFIG[i].0, CONFIG[i].1)
  {
    assert NamedAlike("dry_run", "DryRun");
    assert NamedAlike("suffix", "Suffix");
    assert NamedAlike("bwlimit", "BwLimit");
    assert NamedAlike("order_by", "OrderBy");
    assert NamedAlike("retries", "Retries");
    assert NamedAlike("checksum", "CheckSum");
    assert NamedAlike("checkers", "Checkers");
    assert NamedAlike("max_depth", "MaxDepth");
    assert NamedAlike("metadata", "Metadata");
  }

  lemma SecondConfigNames()
    ensures forall i :: 9 <= i < 18 ==> NamedAlike(CONFIG[i].0, CONFIG[i].1)
  {
    assert NamedAlike("size_only", "SizeOnly");
    assert NamedAlike("tpslimit", "TPSLimit");
    assert NamedAlike("fast_list", "UseListR");
    assert NamedAlike("backup_dir", "BackupDir");
    assert NamedAlike("immutable", "Immutable");
    assert NamedAlike("max_delete", "MaxDelete");
    assert NamedAlike("transfers", "Transfers");
    assert NamedAlike("buffer_size", "BufferSize");
    assert NamedAlike("check_first", "CheckFirst");
  }

  lemma ThirdConfigNames()
    ensures forall i :: 18 <= i < 27 ==> NamedAlike(CONFIG[i].0, CONFIG[i].1)
  {
    assert NamedAlike("ignore_size", "IgnoreSize");
    assert NamedAlike("no_traverse", "NoTraverse");
    assert NamedAlike("bwlimit_file", "BwLimitFile");
    assert NamedAlike("ignore_times", "IgnoreTimes");
    assert NamedAlike("max_transfer", "MaxTransfer");
    assert NamedAlike("no_check_dest", "NoCheckDest");
    assert NamedAlike("update", "UpdateOlder");
    assert NamedAlike("modify_window", "ModifyWindow");
    assert NamedAlike("track_renames", "TrackRenames");
  }

  lemma LastConfigNames()
    ensures forall i :: 27 <= i < 35 ==> NamedAlike(CONFIG[i].0, CONFIG[i].1)
  {
    assert NamedAlike("max_delete_size", "MaxDeleteSize");
    assert NamedAlike("ignore_case_sync", "IgnoreCaseSync");
    assert NamedAlike("ignore_existing", "IgnoreExisting");
    assert NamedAlike("ignore_checksum", "IgnoreChecksum");
    assert NamedAlike("low_level_retries", "LowLevelRetries");
    assert NamedAlike("no_update_modtime", "NoUpdateModTime");
    assert NamedAlike("use_server_modtime", "UseServerModTime");
    assert NamedAlike("server_side_across_configs", "ServerSideAcrossConfigs");
  }

  lemma FilterNames()
    ensures forall i :: 0 <= i < 9 ==> NamedAlike(FILTER[i].0, FILTER[i].1)
  {
    assert NamedAlike("max_age", "MaxAge");
    assert NamedAlike("min_age", "MinAge");
    assert NamedAlike("max_size", "MaxSize");
    assert NamedAlike("min_size", "MinSize");
    assert NamedAlike("files_from", "FilesFrom");
    assert NamedAlike("ignore_case", "IgnoreCase");
    assert NamedAlike("exclude_if_present", "ExcludeFile");
    assert NamedAlike("files_from_raw", "FilesFromRaw");
    assert NamedAlike("delete_excluded", "DeleteExcluded");
  }

  /** Every option of rclone's that is not about a backend is sent under a field named like it. */
  lemma FieldsAreNamedAlike(option: string)
    ensures Find(CONFIG, option).Some? ==> NamedAlike(option, Find(CONFIG, option).value)
    ensures Find(FILTER, option).Some? ==> NamedAlike(option, Find(FILTER, option).value)
  {
    FirstConfigNames();
    SecondConfigNames();
    ThirdConfigNames();
    LastConfigNames();
    FilterNames();
    if Find(CONFIG, option).Some? {
      var i := FindAt(CONFIG, option);
      assert NamedAlike(CONFIG[i].0, CONFIG[i].1);
    }
    if Find(FILTER, option).Some? {
      var i := FindAt(FILTER, option);
      assert NamedAlike(FILTER[i].0, FILTER[i].1);
    }
  }

  lemma {:induction false} FoundAt(table: seq<(string, string)>, i: nat)
    requires i < |table| && forall k :: 0 <= k < i ==> table[k].0 != table[i].0
    ensures Find(table, table[i].0) == Some(table[i].1)
  {
    if i > 0 {
      FoundAt(table[1..], i - 1);
    }
  }

  /** The three that are not, and the two of the backend, which are written into the destination's path. */
  lemma OtherNames()
    ensures ("fast_list", "UseListR") in CONFIG && ("update", "UpdateOlder") in CONFIG
    ensures Find(FILTER, "exclude_if_present") == Some("ExcludeFile")
    ensures BACKEND.Keys == {"upload_cutoff", "disable_checksum"}
    ensures forall k :: k in BACKEND ==> BACKEND[k] == BackendOption(k, DstSide)
  {
    assert CONFIG[11] in CONFIG && CONFIG[24] in CONFIG;
    FoundAt(FILTER, 6);
  }
}

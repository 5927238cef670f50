/** The Bolt settings object: a struct whose members the constructor, the
    file overlay and the command-line overlay write step by step, and a
    read-only validation. Each method is proved against the function of
    `ConfigSpec` that says what the step computes. */
module Bolt {
  import opened RubyValue
  import opened ConfigSpec

  class Config {
    var concurrency: Value
    var format: Value
    var logDestination: Value
    var logLevel: Value
    var modulepath: Value
    var transport: Value
    var transports: Value

    /** The members as a value. */
    function State(): Settings
      reads this
    {
      Settings(concurrency, format, logDestination, logLevel, modulepath, transport, transports)
    }

    /** Every known transport has a parameter hash. */
    predicate Valid()
      reads this
    {
      Shaped(transports)
    }

    /** `Config.new(**kwargs)`. */
    constructor (kwargs: map<string, Value>)
      requires KeywordsAccepted(kwargs)
      ensures Valid() && State() == Initial(kwargs)
    {
      concurrency, format, logDestination, logLevel := Nil, Nil, Nil, Nil;
      modulepath, transport, transports := Nil, Nil, Nil;
      new;
      AssignMerged(kwargs);
      InitTransports();
    }

    /** `self[:transports] ||= {}` followed by the transport loop. */
    method InitTransports()
      requires TableAccepted(transports)
      modifies this`transports
      ensures transports == InitialTransports(old(transports))
    {
      if !Truthy(transports) {
        transports := Hash(map[]);
      }
      assert forall i :: 0 <= i < |TRANSPORTS| ==> Fillable(transports, TRANSPORTS[i]);
      FillAllTransports(TRANSPORTS, TRANSPORT_DEFAULTS);
    }

    /** `DEFAULTS.merge(kwargs).each { |k, v| self[k] = v }` on the fresh struct. */
    method AssignMerged(kwargs: map<string, Value>)
      requires KeywordsAccepted(kwargs)
      requires State() == Settings(Nil, Nil, Nil, Nil, Nil, Nil, Nil)
      modifies this
      ensures State() == Assigned(kwargs)
    {
      AssignAll(DEFAULTS + kwargs);
      DefaultsTable();
      assert forall f :: f in MEMBER_NAMES ==> Member(State(), f) == Merged(kwargs, f);
    }

    /** The constructor's transport loop over `names`: each named transport
        gets a parameter hash with the missing defaults of `table` filled in. */
    method FillAllTransports(names: seq<string>, table: seq<(string, Value)>)
      requires transports.Hash? && forall i :: 0 <= i < |names| ==> Fillable(transports, names[i])
      modifies this`transports
      ensures transports == FillTransports(old(transports), names, table)
    {
      ghost var start := transports;
      for i := 0 to |names|
        invariant transports == FillTransports(start, names[..i], table)
      {
        assert names[..i + 1][..i] == names[..i];
        FillTransportDefaults(names[i], table);
      }
      assert names[..|names|] == names;
    }

    /** `merged.each { |k, v| self[k] = v }` on a struct whose members are all nil. */
    method AssignAll(merged: map<string, Value>)
      requires merged.Keys <= MEMBER_NAMES
      requires forall f :: f in MEMBER_NAMES ==> Member(State(), f) == Nil
      modifies this
      ensures forall f :: f in MEMBER_NAMES ==> Member(State(), f) == if f in merged then merged[f] else Nil
    {
      var pending := merged.Keys;
      while pending != {}
        invariant pending <= merged.Keys
        invariant forall f :: f in MEMBER_NAMES ==>
          Member(State(), f) == if f in merged && f !in pending then merged[f] else Nil
        decreases pending
      {
        var k :| k in pending;
        Set(k, merged[k]);
        pending := pending - {k};
      }
    }

    /** One pass of the constructor's transport loop: `transports[t] = {}
        unless transports[t]`, then each missing default of `table` is filled in. */
    method FillTransportDefaults(t: string, table: seq<(string, Value)>)
      requires transports.Hash? && Fillable(transports, t)
      modifies this`transports
      ensures transports == FillTransport(old(transports), t, table)
    {
      if !Truthy(Lookup(transports.entries, t)) {
        transports := WithParams(transports, t, map[]);
      }
      ghost var cleared := transports;
      for j := 0 to |table|
        invariant HasParams(transports, t)
        invariant transports == WithParams(cleared, t, FillDefaults(Params(cleared, t), table[..j]))
      {
        var (k, v) := table[j];
        assert table[..j + 1][..j] == table[..j];
        if !Truthy(Lookup(Params(transports, t), k)) {
          transports := SetParam(transports, t, k, v);
        }
      }
      assert table[..|table|] == table;
    }

    /** `self[name] = v` on the struct. */
    method Set(name: string, v: Value)
      requires name in MEMBER_NAMES
      modifies this
      ensures State() == WithMember(old(State()), name, v)
    {
      if name == "concurrency" { concurrency := v; }
      else if name == "format" { format := v; }
      else if name == "log_destination" { logDestination := v; }
      else if name == "log_level" { logLevel := v; }
      else if name == "modulepath" { modulepath := v; }
      else if name == "transport" { transport := v; }
      else { transports := v; }
    }

    /** `update_from_file(data)`: raises as `FromFile` says, keeping what was
        written before the raise. */
    method UpdateFromFile(data: Value) returns (r: Outcome)
      requires Valid()
      modifies this
      ensures Valid() && Applied(State(), r) == FromFile(old(State()), data)
    {
      if !Indexable(data) {
        return Fail(Raised(IndexRaises(data)));
      }
      var mp := At(data, "modulepath");
      if Truthy(mp) && !mp.Str? {
        return Fail(Raised(NoMethodError));
      }
      UpdateMembersFromFile(data);
      r := UpdateTransportsFromFile(data);
    }

    /** The `ssh` and `winrm` sections of `update_from_file`, which raise when
        a truthy section cannot be indexed. */
    method UpdateTransportsFromFile(data: Value) returns (r: Outcome)
      requires Shaped(transports) && Indexable(data)
      modifies this`transports
      ensures (transports, r) == FileTransports(old(transports), data)
    {
      var ssh := At(data, "ssh");
      if Truthy(ssh) {
        if !Indexable(ssh) {
          return Fail(Raised(IndexRaises(ssh)));
        }
        UpdateSshFromFile(ssh);
      }
      var winrm := At(data, "winrm");
      if Truthy(winrm) {
        if !Indexable(winrm) {
          return Fail(Raised(IndexRaises(winrm)));
        }
        UpdateWinrmFromFile(winrm);
      }
      return Pass;
    }

    /** The `modulepath`, `concurrency` and `format` keys of `update_from_file`. */
    method UpdateMembersFromFile(data: Value)
      requires Indexable(data)
      requires var mp := At(data, "modulepath"); !Truthy(mp) || mp.Str?
      modifies this
      ensures State() == FileMembers(old(State()), data)
    {
      var mp := At(data, "modulepath");
      if Truthy(mp) {
        modulepath := StrList(Split(mp.s, PATH_SEPARATOR));
      }
      assert State() == if Truthy(mp) then old(State()).(modulepath := modulepath) else old(State());
      var c := At(data, "concurrency");
      if Truthy(c) {
        concurrency := c;
      }
      assert concurrency == if Truthy(c) then c else old(concurrency);
      var f := At(data, "format");
      if Truthy(f) {
        format := f;
      }
    }

    /** The `ssh` section of `update_from_file`. */
    method UpdateSshFromFile(section: Value)
      requires HasParams(transports, "ssh") && Indexable(section)
      modifies this`transports
      ensures transports == SshFromFile(old(transports), section)
    {
      var key := At(section, "private-key");
      if Truthy(key) {
        transports := SetParam(transports, "ssh", "key", key);
      }
      var insecure := At(section, "insecure");
      if Truthy(insecure) {
        transports := SetParam(transports, "ssh", "insecure", insecure);
      }
      var timeout := At(section, "connect-timeout");
      if Truthy(timeout) {
        transports := SetParam(transports, "ssh", "connect_timeout", timeout);
      }
    }

    /** The `winrm` section of `update_from_file`. */
    method UpdateWinrmFromFile(section: Value)
      requires HasParams(transports, "winrm") && Indexable(section)
      modifies this`transports
      ensures transports == WinrmFromFile(old(transports), section)
    {
      var timeout := At(section, "connect-timeout");
      if Truthy(timeout) {
        transports := SetParam(transports, "winrm", "connect_timeout", timeout);
      }
    }

    /** `load_file(path)`: reads the file through `expand` and `open` and
        overlays truthy data. */
    method LoadFile(path: Option<string>, expand: string -> string, open: string -> FileOutcome) returns (r: Outcome)
      requires Valid()
      modifies this
      ensures Valid() && Applied(State(), r) == Load(old(State()), path, expand, open)
    {
      var data := ReadConfigFile(path, expand, open);
      if data.Err? {
        return Fail(data.error);
      }
      if Truthy(data.value) {
        r := UpdateFromFile(data.value);
      } else {
        r := Pass;
      }
    }

    /** `update_from_cli(options)`. */
    method UpdateFromCli(options: map<string, Value>)
      requires Valid()
      modifies this
      ensures Valid() && State() == FromCli(old(State()), options)
    {
      UpdateMembersFromCli(options);
      if Truthy(Lookup(options, "debug")) {
        logLevel := DEBUG;
      } else if Truthy(Lookup(options, "verbose")) {
        logLevel := INFO;
      }
      UpdateTransportsFromCli(options);
    }

    /** The first loop of `update_from_cli`. */
    method UpdateMembersFromCli(options: map<string, Value>)
      modifies this
      ensures State() == CliMemberOptions(old(State()), options)
    {
      assert forall i :: 0 <= i < |CLI_MEMBERS| ==> CLI_MEMBERS[i] in MEMBER_NAMES;
      CopyCliMembers(options, CLI_MEMBERS);
    }

    /** The last loop of `update_from_cli`. */
    method UpdateTransportsFromCli(options: map<string, Value>)
      requires Shaped(transports)
      modifies this`transports
      ensures transports == CliTransportOptions(old(transports), options)
    {
      assert forall i :: 0 <= i < |TRANSPORTS| ==> HasParams(transports, TRANSPORTS[i]);
      CopyTransportOptions(options, TRANSPORT_OPTIONS, TRANSPORTS);
    }

    /** The members the command line sets directly: each member named in
        `keys` takes its option when the option is truthy. */
    method CopyCliMembers(options: map<string, Value>, keys: seq<string>)
      requires forall i :: 0 <= i < |keys| ==> keys[i] in MEMBER_NAMES
      modifies this
      ensures State() == CliMembers(old(State()), options, keys)
    {
      for i := 0 to |keys|
        invariant State() == CliMembers(old(State()), options, keys[..i])
      {
        assert forall j :: 0 <= j < i ==> keys[..i][j] == keys[j];
        assert keys[..i + 1][..i] == keys[..i];
        if Truthy(Lookup(options, keys[i])) {
          Set(keys[i], options[keys[i]]);
        }
      }
      assert keys[..|keys|] == keys;
    }

    /** `keys.each { |key| names.each { ... } }`: each truthy option among
        `keys` is copied into the parameters of every transport in `names`. */
    method CopyTransportOptions(options: map<string, Value>, keys: seq<string>, names: seq<string>)
      requires transports.Hash? && forall i :: 0 <= i < |names| ==> HasParams(transports, names[i])
      modifies this`transports
      ensures transports == CopyOptions(old(transports), options, keys, names)
    {
      ghost var start := transports;
      for i := 0 to |keys|
        invariant transports == CopyOptions(start, options, keys[..i], names)
      {
        assert keys[..i + 1][..i] == keys[..i];
        CopyToTransports(options, keys[i], names);
      }
      assert keys[..|keys|] == keys;
    }

    /** `names.each { |t| transports[t][key] = options[key] if options[key] }`. */
    method CopyToTransports(options: map<string, Value>, key: string, names: seq<string>)
      requires transports.Hash? && forall j :: 0 <= j < |names| ==> HasParams(transports, names[j])
      modifies this`transports
      ensures transports == CopyOption(old(transports), options, key, names)
    {
      ghost var before := transports;
      for j := 0 to |names|
        invariant transports == CopyOption(before, options, key, names[..j])
      {
        assert forall m :: 0 <= m < j ==> names[..j][m] == names[m];
        assert names[..j + 1][..j] == names[..j];
        if Truthy(Lookup(options, key)) {
          transports := SetParam(transports, names[j], key, options[key]);
        }
      }
      assert names[..|names|] == names;
    }

    /** `validate`: fails on the first transport, in the order ssh, winrm,
        pcp, whose `sudo` is truthy and not the string `sudo`; otherwise fails
        for a format other than `human` and `json`; otherwise passes. It
        changes nothing. */
    method Validate() returns (r: Outcome)
      requires Valid()
      ensures r == Fail(UnsupportedEscalation) <==>
        exists i :: 0 <= i < |TRANSPORTS| && BadEscalation(Params(transports, TRANSPORTS[i]))
      ensures r == Fail(UnsupportedFormat(format)) <==>
        (forall i :: 0 <= i < |TRANSPORTS| ==> !BadEscalation(Params(transports, TRANSPORTS[i]))) &&
        !SupportedFormat(format)
      ensures r == Pass <==>
        (forall i :: 0 <= i < |TRANSPORTS| ==> !BadEscalation(Params(transports, TRANSPORTS[i]))) &&
        SupportedFormat(format)
    {
      for i := 0 to |TRANSPORTS|
        invariant forall j :: 0 <= j < i ==> !BadEscalation(Params(transports, TRANSPORTS[j]))
      {
        var tconf := Params(transports, TRANSPORTS[i]);
        var sudo := Lookup(tconf, "sudo");
        if Truthy(sudo) && sudo != Str("sudo") {
          return Fail(UnsupportedEscalation);
        }
      }
      if !(format == Str("human") || format == Str("json")) {
        return Fail(UnsupportedFormat(format));
      }
      return Pass;
    }
  }
}

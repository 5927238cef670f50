# Bolt settings object, modelled in Dafny

This project models `Bolt::Config`, the settings record of the Bolt task
runner (`lib/bolt/config.rb`). The record has seven members: concurrency,
output format, log destination, log level, module path, default transport,
and a table of per-transport parameter hashes for `ssh`, `winrm` and `pcp`.
It is built in layers:

- the constructor merges the built-in defaults with keyword arguments and
  fills the transport defaults (`connect_timeout` 10, `insecure` false,
  `tty` false);
- `update_from_file` overlays a parsed configuration file;
- `load_file` reads that file first;
- `update_from_cli` overlays command-line options;
- `validate` rejects unsupported privilege escalation and output formats.

Every guard in the source uses Ruby truthiness, so `nil` and `false` both
count as absent. The model keeps that distinction exactly.

The project has three modules:

- `RubyValue` (`ruby_value.dfy`) holds the Ruby values the code handles:
  - nil, booleans, integers, strings, symbols, arrays, hashes, and opaque objects (`Handle`: any other object without `[]` taking a string, such as the STDERR stream or a Float, Date or Time that `YAML.load` produces)
  - truthiness
  - `v[k]` with a string key, including `String#[]`, `Symbol#[]` and the exceptions raised for the other kinds of value
  - `String#split` on a one-character separator, with its proved round trip through `join`
- `ConfigSpec` (`config_spec.dfy`) holds the constants, the `Settings` record, and one pure function per step saying what that step computes. Beside the functions are the lemmas that state what each step promises.
- `Bolt` (`config.dfy`) holds the class `Config`:
  - its fields are the struct members;
  - the constructor and the two overlay methods update those fields in place, loop by loop as the source does;
  - each is proved to leave the class in the state the matching `ConfigSpec` function gives;
  - `Validate` is a read-only loop with early failure, specified by what it answers.

`read_config_file` depends on the filesystem, which is passed in as two
function parameters:
- `expand` stands for `File.expand_path`;
- `open` stands for `File.open` followed by `YAML.load`, and answers parsed data, missing file, unparsable, or unreadable.

The code never checks that concurrency is at least 1, and neither does the
model. An unknown output format is rejected only by `validate`, which is a
separate call; construction and the overlays accept any format.

## Model

| member | source | states |
|---|---|---|
| RubyValue.Lookup | lib/bolt/config.rb:119-121 | `Hash#[]` answers the stored value, falsy or not, when the key is present, and nil when it is absent |
| RubyValue.Index | lib/bolt/config.rb:78-103 | `v[k]` succeeds exactly on a Hash, a String or a Symbol, and otherwise raises `IndexRaises(v)`; on a Hash it answers the stored entry, or nil for an absent key; on a String or Symbol it answers `k` when `k` occurs in the text and nil otherwise |
| RubyValue.IndexRaises | lib/bolt/config.rb:78-103 | indexing an Integer or an Array with a string raises TypeError; any other value without `[]` raises NoMethodError |
| RubyValue.Split | lib/bolt/config.rb:78-80 | `split` gives a prefix of the fields between separators; none of its pieces contains the separator; its last piece is not empty; everything it drops is empty |
| RubyValue.FieldsJoin | lib/bolt/config.rb:78-80 | joining the fields of a string with the separator gives the string back |
| RubyValue.SplitJoin | lib/bolt/config.rb:78-80 | the string is the kept pieces joined, followed by one separator per dropped empty piece: splitting loses nothing else |
| RubyValue.StrList | lib/bolt/config.rb:79 | the split result is an Array of Strings, piece by piece |
| ConfigSpec.WithMember | lib/bolt/config.rb:35 | `self[name] = v` makes that member read `v` and leaves every other member unchanged |
| ConfigSpec.SetParam | lib/bolt/config.rb:44 | `ts[t][k] = v` sets one parameter of one transport; every other transport entry and the set of table keys are unchanged |
| ConfigSpec.Assigned | lib/bolt/config.rb:35 | after the merge loop every member holds the keyword argument if one was given, and the default otherwise |
| ConfigSpec.FillDefaults | lib/bolt/config.rb:42-46 | filling defaults never removes a parameter |
| ConfigSpec.FillDefaultsAt | lib/bolt/config.rb:42-46 | a truthy supplied parameter is kept; a falsy or missing default key takes its default; every other key keeps its value or stays absent |
| ConfigSpec.FillTransport | lib/bolt/config.rb:39-46 | one pass of the transport loop gives that transport a hash of its supplied parameters with the defaults filled in, and changes no other transport |
| ConfigSpec.FillTransports | lib/bolt/config.rb:38-47 | after the loop every named transport has a parameter hash; no key is added except the named ones; every other entry is kept |
| ConfigSpec.FillTransportsAt | lib/bolt/config.rb:38-47 | for distinct names, each named transport ends up with its own supplied parameters plus the defaults, whatever the loop does to the others |
| ConfigSpec.TransportDefaultsTable | lib/bolt/config.rb:25-29 | the transport defaults have distinct keys and are `connect_timeout` 10, `insecure` false and `tty` false |
| ConfigSpec.DefaultsTable | lib/bolt/config.rb:15-21 | the member defaults are concurrency 100, transport `ssh`, format `human`, log level WARN and log destination STDERR; `modulepath` and `transports` have none |
| ConfigSpec.InitialTransports | lib/bolt/config.rb:37-47 | defaulting the table to an empty hash and then running the loop leaves `ssh`, `winrm` and `pcp` each with a parameter hash |
| ConfigSpec.Initial | lib/bolt/config.rb:33-48 | the constructed record has a parameter hash for every known transport |
| ConfigSpec.InitialMembers | lib/bolt/config.rb:15-35 | after construction, concurrency, transport, format, log level and log destination hold the keyword argument when given and the default otherwise; modulepath holds the argument or nil |
| ConfigSpec.AssignedTransports | lib/bolt/config.rb:35-37 | no default is merged into `transports`, so the loop starts from the argument or nil |
| ConfigSpec.InitialTransportsAt | lib/bolt/config.rb:37-47 | each known transport gets the parameters supplied for it, or none, with the defaults filled in |
| ConfigSpec.InitialParams | lib/bolt/config.rb:37-47 | after construction each known transport's parameters are the supplied ones with the defaults filled in |
| ConfigSpec.InitialTransportDefaults | lib/bolt/config.rb:25-47 | after construction every known transport has `connect_timeout`, `insecure` and `tty`: the supplied value when truthy, and 10, false and false otherwise |
| ConfigSpec.InitialTransportOtherParams | lib/bolt/config.rb:42-46 | construction keeps every other supplied parameter of a known transport, and adds no parameter besides the defaults |
| ConfigSpec.InitialOtherTransports | lib/bolt/config.rb:37-47 | construction leaves every entry of a supplied table under another name as it was |
| ConfigSpec.InitialTransportsOther | lib/bolt/config.rb:37-47 | defaulting the table to an empty hash and the transport loop keep the table's entry under any other name and add none there |
| ConfigSpec.CopyIfTruthy | lib/bolt/config.rb:90-106 | a file value reaches its parameter only when it is truthy |
| ConfigSpec.SshFromFile | lib/bolt/config.rb:90-100 | the `ssh` section touches only the `ssh` entry of the table |
| ConfigSpec.WinrmFromFile | lib/bolt/config.rb:102-106 | the `winrm` section touches only the `winrm` entry of the table |
| ConfigSpec.FileMembers | lib/bolt/config.rb:78-88 | the top-level file keys leave log level, log destination, transport and the transport table alone |
| ConfigSpec.FileTransports | lib/bolt/config.rb:90-106 | the sections keep every known transport's hash; they change no entry but `ssh` and `winrm`; a failure is always a raised exception |
| ConfigSpec.FromFile | lib/bolt/config.rb:77-111 | `update_from_file` keeps log level, log destination, transport, the table's keys and every entry but `ssh` and `winrm`; it fails only by raising; non-indexable data raises its exception before anything changes |
| ConfigSpec.FromFileFrame | lib/bolt/config.rb:90-106 | raising part-way or not, a file changes no `ssh` parameter but `key`, `insecure` and `connect_timeout`, and no `winrm` parameter but `connect_timeout` |
| ConfigSpec.SshFromFileFrame | lib/bolt/config.rb:90-100 | `private-key`, `insecure` and `connect-timeout` reach `key`, `insecure` and `connect_timeout` when truthy; `winrm` and `pcp` stay as they were |
| ConfigSpec.SshFromFileOthers | lib/bolt/config.rb:90-100 | every `ssh` parameter other than `key`, `insecure` and `connect_timeout` stays as it was |
| ConfigSpec.WinrmFromFileFrame | lib/bolt/config.rb:102-106 | `connect-timeout` reaches `connect_timeout` when truthy; `ssh` and `pcp` stay as they were |
| ConfigSpec.WinrmFromFileOthers | lib/bolt/config.rb:102-106 | every `winrm` parameter other than `connect_timeout` stays as it was |
| ConfigSpec.FromFileMembers | lib/bolt/config.rb:78-88 | a truthy `modulepath` string becomes its pieces between path separators; a truthy `concurrency` or `format` replaces the member; a falsy or missing key leaves it; a truthy non-string `modulepath` raises and changes nothing |
| ConfigSpec.FromFileTransports | lib/bolt/config.rb:90-110 | for a file that raises nothing, the `ssh` and `winrm` parameters take the truthy section values under their renamed keys, and `pcp` is unchanged |
| ConfigSpec.DefaultPath | lib/bolt/config.rb:50-54 | the default path is `~/.puppetlabs/bolt.yml` |
| ConfigSpec.Load | lib/bolt/config.rb:113-116 | loading keeps every transport's hash, and a read or parse error changes nothing |
| ConfigSpec.ReadConfigFile | lib/bolt/config.rb:56-75 | parsed data is answered as is; a missing file is no data when no path was given and a "could not read" error when one was; an unparsable file is a "could not parse" error and an unreadable one a "could not read" error; every error names the expanded path, which with no path given is the expanded `~/.puppetlabs/bolt.yml` |
| ConfigSpec.LoadOutcomes | lib/bolt/config.rb:56-75 | a missing default file is no error and changes nothing; a missing given file, an unparsable file and an unreadable file are errors naming the expanded path; falsy data changes nothing; truthy data goes to `update_from_file` |
| ConfigSpec.LoadDefaultPath | lib/bolt/config.rb:56-66 | with no path given and no file at the expanded default path, loading passes and changes nothing |
| ConfigSpec.CliMembers | lib/bolt/config.rb:119-121 | the member loop changes no member outside its keys |
| ConfigSpec.CliMembersAt | lib/bolt/config.rb:119-121 | each member named in the keys takes its option when truthy, and every member keeps its value otherwise |
| ConfigSpec.CliLogLevel | lib/bolt/config.rb:123-127 | a truthy `debug` selects DEBUG whatever `verbose` says; otherwise a truthy `verbose` selects INFO; otherwise the log level is kept |
| ConfigSpec.CliMemberOptions | lib/bolt/config.rb:119-121 | the member loop leaves log level, log destination and the transport table alone |
| ConfigSpec.CopyOption | lib/bolt/config.rb:130-133 | copying one option into the named transports keeps the table's keys, every parameter hash, and every entry outside the names |
| ConfigSpec.CopyOptionAt | lib/bolt/config.rb:130-133 | each named transport receives the option when it is truthy and is unchanged otherwise |
| ConfigSpec.CopyOptions | lib/bolt/config.rb:129-134 | the option loop keeps the table's keys, every parameter hash and every entry outside the names |
| ConfigSpec.CopyOptionsAt | lib/bolt/config.rb:129-134 | after the loop, parameter `k` of a named transport holds option `k` when `k` is among the keys and the option is truthy, and is unchanged otherwise |
| ConfigSpec.CliTransportOptions | lib/bolt/config.rb:129-134 | the transport-option loop keeps every known transport's hash and every entry under another name |
| ConfigSpec.CliTransportOptionsAt | lib/bolt/config.rb:129-134 | a truthy transport option reaches the same parameter of every known transport; other parameters keep their value |
| ConfigSpec.FromCli | lib/bolt/config.rb:118-135 | `update_from_cli` keeps every transport's hash, the table's keys and the log destination |
| ConfigSpec.FromCliMembers | lib/bolt/config.rb:118-127 | concurrency, transport, format and modulepath change only for truthy options; truthy `debug` gives DEBUG whatever `verbose` says, then truthy `verbose` gives INFO; otherwise the log level stays |
| ConfigSpec.FromCliTransports | lib/bolt/config.rb:129-134 | every truthy transport option reaches all three transports with the same value; other transport parameters and entries under other names are unchanged |
| Bolt.Config.constructor | lib/bolt/config.rb:33-48 | the new object is valid and its members are exactly `Initial(kwargs)` |
| Bolt.Config.AssignMerged | lib/bolt/config.rb:35 | assigning `DEFAULTS.merge(kwargs)` member by member gives the merged record |
| Bolt.Config.AssignAll | lib/bolt/config.rb:35 | after the loop over the merged hash, every member holds its merged value, or nil when it has none |
| Bolt.Config.InitTransports | lib/bolt/config.rb:37-47 | the table becomes `InitialTransports` of what the merge put there |
| Bolt.Config.FillAllTransports | lib/bolt/config.rb:38-47 | the transport loop leaves the table equal to `FillTransports` of the old table |
| Bolt.Config.FillTransportDefaults | lib/bolt/config.rb:39-46 | one pass leaves the table equal to `FillTransport` of the old table |
| Bolt.Config.Set | lib/bolt/config.rb:35 | `self[name] = v` in place gives `WithMember` of the old record |
| Bolt.Config.UpdateFromFile | lib/bolt/config.rb:77-111 | the object stays valid; the new record and the outcome are exactly `FromFile` of the old record, including what was written before a raise |
| Bolt.Config.UpdateMembersFromFile | lib/bolt/config.rb:78-88 | the new record is `FileMembers` of the old one |
| Bolt.Config.UpdateTransportsFromFile | lib/bolt/config.rb:90-106 | the new table and the outcome are `FileTransports` of the old table |
| Bolt.Config.UpdateSshFromFile | lib/bolt/config.rb:90-100 | the new table is `SshFromFile` of the old one |
| Bolt.Config.UpdateWinrmFromFile | lib/bolt/config.rb:102-106 | the new table is `WinrmFromFile` of the old one |
| Bolt.Config.LoadFile | lib/bolt/config.rb:113-116 | the object stays valid; the new record and the outcome are exactly `Load` of the old record |
| Bolt.Config.UpdateFromCli | lib/bolt/config.rb:118-135 | the object stays valid and the new record is exactly `FromCli` of the old one |
| Bolt.Config.UpdateMembersFromCli | lib/bolt/config.rb:119-121 | the new record is `CliMemberOptions` of the old one |
| Bolt.Config.UpdateTransportsFromCli | lib/bolt/config.rb:129-134 | the new table is `CliTransportOptions` of the old one |
| Bolt.Config.CopyCliMembers | lib/bolt/config.rb:119-121 | the member loop gives `CliMembers` of the old record |
| Bolt.Config.CopyTransportOptions | lib/bolt/config.rb:129-134 | the nested option loop gives `CopyOptions` of the old table |
| Bolt.Config.CopyToTransports | lib/bolt/config.rb:130-133 | the inner loop gives `CopyOption` of the old table |
| Bolt.Config.Validate | lib/bolt/config.rb:137-148 | fails with the escalation error exactly when some known transport has a truthy `sudo` other than `'sudo'`; otherwise fails with the format error exactly when the format is not `human` or `json`; otherwise passes; changes nothing |

## Left out

- Reading the file: `File.expand_path`, `File.open` with UTF-8 decoding, and `YAML.load` are I/O and a foreign library. They are the parameters `expand` and `open` of `LoadFile` and `ReadConfigFile`.
- `Logger::DEBUG`, `Logger::INFO` and `Logger::WARN` are the integers 0, 1 and 2. `STDERR` is an opaque token. No logging is modelled.
- `File::PATH_SEPARATOR` is fixed to `:`, its POSIX value. The Windows value `;` is not modelled.
- The text of each `Bolt::CLIError` is not computed. Each constructor of `ConfigSpec.Error` stands for one message, and the comment beside it gives the text.
- The constructor's error paths are excluded by the constructor's requires (`KeywordsAccepted`):
  - the `Struct` error for an unknown keyword argument;
  - the Ruby exceptions raised for a `transports` argument that is truthy but not a hash, or whose entry for a known transport is truthy but not a hash.
- Aliasing is not modelled. The source fills a caller-supplied `transports` hash in place, so the caller sees the changes. Here every hash is a value.
- Hash keys are modelled by their names alone, so a key of the wrong kind is not modelled: the model finds it where Ruby would not. Two kinds of input are affected:
  - file data with Symbol or other non-String keys, such as a `:ssh:` key that `YAML.load` makes a Symbol. Ruby's `data['ssh']` misses such a key, but the model reads it;
  - a `transports` argument, or a parameter hash inside it, keyed by Strings such as `'ssh'`. Ruby's `self[:transports][:ssh]` misses it, so Ruby adds a fresh `:ssh` entry and `validate` ignores the String entry. The model treats that entry as `ssh`.
- `Bolt.Config.Validate` names the error but not which transport triggered it. The source fails on the first bad transport in the order `ssh`, `winrm`, `pcp`, with the same error whichever it is.
- Checking that the concurrency is at least 1 is not modelled, because the code has no such check.
- Some context files are not part of this model:
  - `spec/bolt/outputter/human_spec.rb` tests an output formatter whose source is not part of this model;
  - `acceptance/tests/script_ssh.rb` drives a real SSH run.
- The executor, the transports themselves, concurrency bounding and the reporters are not part of this model.

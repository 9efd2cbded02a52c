# Ceph keyring lifecycle, modelled in Dafny

This project models `ceph_cfg/keyring.py` of python-ceph-cfg. That file
manages the authentication keyrings of a Ceph cluster's built-in roles:

- the administrative client;
- the monitor bootstrap key;
- the OSD, MDS and RGW bootstrap keys.

The model has four parts, one Dafny module each, over two small support
modules:

- `Registry` is the `KEYRINGS` table. It gives each role a path template
  with one `%s` for the cluster name, a principal name and capability grants.
  It also covers path resolution (`keyring_path_get`) and identity lookup
  (`keyring_identity_get`).
- `KeyringFormat` is the line transformation inside `_keyring_write`:
  - split on newlines;
  - strip each line and drop blank ones;
  - keep `[section]` headers as they are;
  - indent every other line with one tab;
  - end every written line with a newline.

  It holds a pure `Serialize` and the write loop as a method (`WriteLines`).
- `Authtool` is the `ceph-authtool` command line built by
  `invoke_ceph_authtool` and `get_arguments_create`. This includes the
  `--set-uid=0` flag for the admin key of releases before 0.95. A reader
  (`ParseCreateArgs`) recovers the request from a command line and serves as
  the builder's inverse.
- `Lifecycle` holds `present`, `create`, `write_content`, `write_secret` and
  `remove` over an abstract filesystem. It ends with the never-clobber
  theorem: no sequence of creates and writes changes a keyring that is
  already on disk.

The support modules:

- `PyStr` holds the Python primitives the code relies on: `str.strip()`,
  with the full `str.isspace` set, `str.split`, `str.join` and two-argument
  `os.path.join`.
- `Results` holds `Option` and `Result`.

The model is pure functions and lemmas over immutable values. The one
exception is the write loop of `_keyring_write`, which is the method
`KeyringFormat.WriteLines` with the helper method `KeyringFormat.WriteLine`;
its result is proved equal to the pure `Serialize`. Each lifecycle operation
returns a `Step`, which holds three things:

- the new filesystem;
- the value returned, or the error raised;
- the command lines handed to the tool.

The filesystem is a map from path to file text, plus the set of scratch
directories that exist. One run of the external tool is a `ToolRun` record:

- its exit status;
- its captured output streams;
- the keyring text it left at its `--create-keyring` target, if any.

`create` gets its scratch directory as a parameter. That parameter must
satisfy what `tempfile.mkdtemp` guarantees (`FreshTempDir`).

Three behaviours of the code are worth stating plainly:

- **Repeated `create`.** `create` never stores what it generates: the key is
  produced in a scratch directory that is then deleted. So a second `create`
  on a keyring that is still absent runs the tool again
  (`Lifecycle.CreateLeavesAbsent`). Only a keyring that is present is
  returned without running the tool (`Lifecycle.CreateTwiceWhenPresent`).
- **Empty secrets.** `write_secret` rejects only `None`. An empty string
  passes, fails the truthiness test in `invoke_ceph_authtool`, and makes the
  tool generate a fresh key (`Lifecycle.WriteSecretEmptyGenerates`).
- **Unknown roles.** `KEYRINGS[key_type]` raises `KeyError` for any key other
  than the five role names, modelled by `Registry.RoleOf` returning `None`.

Strings follow Python 3 `str` semantics: `strip()` removes every character
for which `str.isspace()` holds, Unicode spaces included, and reading a
keyring file in text mode turns `\r\n` and a lone `\r` into `\n`. So
`create` returns what such a read sees, which can differ from the stored
text.

## Model

| member | source | states |
|---|---|---|
| PyStr.Strip | ceph_cfg/keyring.py:66 | `line.strip()` leaves no whitespace at either end and is never longer than the line |
| PyStr.StripTrims | ceph_cfg/keyring.py:66 | the stripped line is a slice of the line with only whitespace cut from its two ends; with `Strip`'s contract this fixes the result |
| PyStr.StripAllSpace | ceph_cfg/keyring.py:66-67 | a line of whitespace only strips to the empty string, so it counts as blank |
| PyStr.StripIdempotent | ceph_cfg/keyring.py:66 | stripping twice is stripping once |
| PyStr.StripKeepsOut | ceph_cfg/keyring.py:66 | stripping never introduces a character, so a stripped line has no newline |
| PyStr.Split | ceph_cfg/keyring.py:65 | `content.split('\n')` gives at least one piece, no piece holds a newline, and joining the pieces gives the content back |
| PyStr.SplitJoin | ceph_cfg/keyring.py:65 | splitting a join of newline-free pieces gives back exactly those pieces |
| PyStr.ReadText | ceph_cfg/keyring.py:54-58 | a Python 3 text-mode read (`open(path, 'r').read()`) never yields a carriage return and is never longer than the file; the translation itself is fixed by `ReadTextCrLf`, `ReadTextLoneCr` and `ReadTextPlain` |
| PyStr.ReadTextAppend | ceph_cfg/keyring.py:54-58 | reading a text is reading its two halves one after the other, wherever the cut falls, unless it separates a `\r` from the `\n` after it |
| PyStr.ReadTextCrLf | ceph_cfg/keyring.py:54-58 | every `\r\n` pair reads as a single `\n`, whatever text surrounds it |
| PyStr.ReadTextLoneCr | ceph_cfg/keyring.py:54-58 | every `\r` not followed by `\n` reads as a single `\n`, whatever text surrounds it |
| PyStr.ReadTextPlain | ceph_cfg/keyring.py:54-58 | text without a carriage return reads back unchanged |
| PyStr.ReadTextIdempotent | ceph_cfg/keyring.py:54-58 | reading text that was already read changes nothing |
| PyStr.PathJoinParts | ceph_cfg/keyring.py:139 | `os.path.join(a, b)`: an absolute `b` is the whole result; otherwise the result starts with `a`, ends with `b`, and has one `/` between them exactly when `a` is non-empty and does not end in `/` |
| Registry.RoleOf | ceph_cfg/keyring.py:15-41 | a `KEYRINGS` lookup finds a role exactly when the key is one of the five role names, and that role has that name; any other key fails |
| Registry.RoleOfRoleName | ceph_cfg/keyring.py:15-41 | looking a role up by its own name finds it |
| Registry.PathTemplateText | ceph_cfg/keyring.py:15-41 | each split template, joined back around `%s`, is the table's path string: `/etc/ceph/%s.client.admin.keyring` for admin, `os.path.join(root, "bootstrap-<role>/%s.keyring")` for the others |
| Registry.DefinitionShape | ceph_cfg/keyring.py:15-41 | every `KEYRINGS` row has an absolute directory before the `%s` and a dot right after it, a monitor grant first, and no subsystem named twice |
| Registry.BootstrapDir | ceph_cfg/keyring.py:22 | a bootstrap directory, `os.path.join` of the library root and `bootstrap-<role>/`, is absolute and ends in `/` |
| Registry.KeyringPath | ceph_cfg/keyring.py:201-205 | the resolved path is the template's text before `%s`, then the cluster name, then the text after `%s`, at those exact offsets |
| Registry.Identity | ceph_cfg/keyring.py:208-212 | the principal name is `mon.` exactly for the monitor role; every other name starts with `client.` |
| Registry.IdentityInjective | ceph_cfg/keyring.py:208-212 | two roles share a principal name if and only if they are the same role |
| Registry.ClusterOfPath | ceph_cfg/keyring.py:201-205 | a cluster name read out of a keyring path resolves back to that path |
| Registry.ClusterOfKeyringPath | ceph_cfg/keyring.py:201-205 | the cluster name substituted into a role's template can be read back from the resolved path |
| Registry.KeyringPathInjective | ceph_cfg/keyring.py:201-205 | for one role, two cluster names resolve to the same path if and only if they are equal |
| Registry.KeyringPathShape | ceph_cfg/keyring.py:15-41 | every resolved path is absolute and holds the cluster name where the template has its placeholder |
| Registry.BootstrapPathsDisjoint | ceph_cfg/keyring.py:21-40 | two different bootstrap roles never resolve to the same path, for any cluster names |
| Registry.RegistryShape | ceph_cfg/keyring.py:15-41 | bootstrap roles follow one pattern: `bootstrap-<role>/<cluster>.keyring`, and `client.bootstrap-<role>` with `allow profile bootstrap-<role>` on mon for osd, mds and rgw; admin holds `allow *` on every subsystem; no role names a subsystem twice |
| KeyringFormat.Serialize | ceph_cfg/keyring.py:60-73 | splitting the written file text on newlines gives exactly the written form of the input lines, followed by one empty piece |
| KeyringFormat.EmitLines | ceph_cfg/keyring.py:65-72 | there are never more written lines than input lines |
| KeyringFormat.EmitLinesForm | ceph_cfg/keyring.py:65-72 | every written line is a stripped header or a tab followed by a stripped non-header |
| KeyringFormat.WriteLines | ceph_cfg/keyring.py:64-72 | the line-by-line write loop produces exactly the serialised text |
| KeyringFormat.EmitLinesCount | ceph_cfg/keyring.py:65-68 | the number of written lines equals the number of input lines that are not blank once stripped |
| KeyringFormat.EmitLinesPlacement | ceph_cfg/keyring.py:65-72 | each non-blank input line is written, formatted, at the position given by the number of non-blank lines before it, so input order is kept |
| KeyringFormat.RenderIsJoin | ceph_cfg/keyring.py:70-72 | every written line, the last one included, ends with one newline |
| KeyringFormat.EmittedLineStable | ceph_cfg/keyring.py:69-72 | a written line strips back to the text it came from and is written again unchanged |
| KeyringFormat.EmitLinesFixpoint | ceph_cfg/keyring.py:65-72 | lines already in written form pass through the line rules unchanged |
| KeyringFormat.SerializeIdempotent | ceph_cfg/keyring.py:65-72 | serialising already serialised text gives the same text |
| KeyringFormat.SerializeKeepsOut | ceph_cfg/keyring.py:64-72 | serialising adds no character other than tabs and newlines to those of the content |
| KeyringFormat.SerializeShape | ceph_cfg/keyring.py:65-72 | a header, a padded key line, a blank line and a padded caps line become the header and two tab-indented lines |
| KeyringFormat.SerializeExample | ceph_cfg/keyring.py:65-72 | a concrete `[mon.]` keyring text with a padded key line, a blank line and a padded caps line serialises to the header and two tab-indented lines, each ended by a newline |
| Authtool.KeySourceOf | ceph_cfg/keyring.py:102-105 | a fresh key is asked for exactly when the secret is `None` or empty; otherwise the key added is the secret with only whitespace cut from its two ends, and none left at either end, which is `secret.strip()` |
| Authtool.BlankSecretAddsEmptyKey | ceph_cfg/keyring.py:102-103 | a non-empty secret of whitespace only is truthy, so it is not replaced by a generated key: the key added is empty |
| Authtool.CapArgs | ceph_cfg/keyring.py:109-110 | each capability entry contributes exactly one `--cap subsystem grant` triple, in order |
| Authtool.CapArgsWords | ceph_cfg/keyring.py:109-110 | a word of the capability arguments is `--cap` or a word of the capability list |
| Authtool.InvokeAuthtool | ceph_cfg/keyring.py:96-111 | the arguments start with tool, `-n`, name, `--create-keyring`, path; next come `--add-key` and the stripped secret when the secret is truthy, otherwise `--gen-key`; then the extra arguments; then one triple per capability; the length is 5 + (2 or 1) + extras + 3 per capability |
| Authtool.CreateArgs | ceph_cfg/keyring.py:114-121 | reading the create command line back gives the role's registry name and capabilities, the key source the secret selects, and `--set-uid=0` exactly when the role is admin, the major version is 0 and the minor version is below 95; that flag sits right after the key arguments in exactly that case |
| Authtool.CapsHaveNoKeyFlag | ceph_cfg/keyring.py:15-41 | no capability word in the registry spells `--gen-key` or `--add-key` |
| Authtool.RequestKeyFlags | ceph_cfg/keyring.py:96-105 | provided the tool, the principal name, the keyring path and every capability word are neither `--gen-key` nor `--add-key`, and an added key is not `--gen-key`: a command line holds `--gen-key` and no `--add-key` when generating; it holds `--add-key` and the key, and no `--gen-key`, when adding one |
| Authtool.CreateArgsKeyFlags | ceph_cfg/keyring.py:102-105 | provided the keyring path is not itself `--gen-key` or `--add-key` and the stripped secret is not `--gen-key`: without a truthy secret the create arguments contain `--gen-key` and not `--add-key`; with one they contain `--add-key` and the stripped secret, and not `--gen-key` |
| Authtool.ParseCapArgs | ceph_cfg/keyring.py:109-110 | the capability triples read back as the capability list |
| Authtool.CapArgsOfParse | ceph_cfg/keyring.py:109-110 | a run of triples that reads as a capability list is exactly that list's arguments |
| Authtool.ParseRequestArgs | ceph_cfg/keyring.py:114-121 | reading a request's command line gives the request back |
| Authtool.RequestArgsOfParse | ceph_cfg/keyring.py:114-121 | a command line that reads as a request is exactly that request's command line |
| Lifecycle.PathGet | ceph_cfg/keyring.py:201-205 | the keyring's path reads back, for its role, as its cluster name |
| Lifecycle.Present | ceph_cfg/keyring.py:124-128 | a keyring is present exactly when some file on disk is this role's keyring path for this cluster |
| Lifecycle.TempKeyPath | ceph_cfg/keyring.py:139 | the staged keyring path lies inside the scratch directory |
| Lifecycle.RunTool | ceph_cfg/keyring.py:141 | the tool writes only its `--create-keyring` target, with the text it produced |
| Lifecycle.CleanupRestores | ceph_cfg/keyring.py:138-151 | staging a fresh scratch directory, letting the tool write inside it and removing the directory restores the filesystem exactly |
| Lifecycle.RemoveTree | ceph_cfg/keyring.py:151 | `rmtree` removes the directory and everything under it, and nothing else |
| Lifecycle.Create | ceph_cfg/keyring.py:131-152 | a present keyring's content is returned, as a Python 3 text-mode read sees it, with no tool run and no change. Otherwise the tool runs once on a path inside the scratch directory. A non-zero exit raises with the command line, exit code and streams. A zero exit returns the generated text as read back, or raises a read failure when there is none. The filesystem ends as it began, and no scratch directory is left |
| Lifecycle.WriteContent | ceph_cfg/keyring.py:155-162 | returns true; a present keyring is untouched; otherwise the resolved path holds the serialised content and no other path changes |
| Lifecycle.WriteSecret | ceph_cfg/keyring.py:165-185 | a present keyring gives true with no change and no tool run, even for a `None` secret. Otherwise a `None` secret raises and changes nothing. Any other secret runs the tool once on the resolved path, no other path changes, and a non-zero exit raises with the command line |
| Lifecycle.Remove | ceph_cfg/keyring.py:188-198 | an absent keyring gives true and no change; a refused delete raises and leaves the file; otherwise only the keyring's file is gone and true is returned |
| Lifecycle.RemoveIdempotent | ceph_cfg/keyring.py:188-198 | after a removal the keyring is absent, and removing again is a no-op success |
| Lifecycle.RemoveUndoesWriteContent | ceph_cfg/keyring.py:155-198 | writing an absent keyring's content and removing it restores the filesystem exactly |
| Lifecycle.WriteContentThenCreate | ceph_cfg/keyring.py:131-162 | after content is written, `create` returns the serialised content as read back, without running the tool; for content with no carriage return that is exactly the serialised text |
| Lifecycle.WriteSecretThenCreate | ceph_cfg/keyring.py:131-185 | after a tool run writes a keyring, `create` returns that text as read back, without running the tool |
| Lifecycle.CreateTwiceWhenPresent | ceph_cfg/keyring.py:135-136 | two calls of `create` on a present keyring return the same content, as read back, and never run the tool |
| Lifecycle.CreateLeavesAbsent | ceph_cfg/keyring.py:137-152 | `create` on an absent keyring leaves it absent, so a second call runs the tool again |
| Lifecycle.CreateFailureReportsCommand | ceph_cfg/keyring.py:142-151 | a failed generation carries the exact command line, which targets the staged path, and the exit code; the scratch directory is gone |
| Lifecycle.WriteSecretEmptyGenerates | ceph_cfg/keyring.py:171-176 | an empty secret is not rejected; the tool is asked for `--gen-key` and not `--add-key` |
| Lifecycle.ApplyKeepsKeyring | ceph_cfg/keyring.py:124-198 | one call that is not a removal of the keyring at a path leaves that file's content as it was |
| Lifecycle.NeverClobber | ceph_cfg/keyring.py:124-198 | for any sequence of creates, writes and removals of other keyrings, whatever the tool does, a keyring already on disk keeps its content |

## Left out

- Real I/O is not modelled. This covers opening, reading and writing files,
  `os.path.isfile`, `os.path.isdir`, `os.makedirs`, `tempfile.mkdtemp` and
  `shutil.rmtree`. The filesystem is a map from path to text plus a set of
  scratch directories. The parent directories created at lines 61-63 and
  173-175 are not modelled, because every write is assumed to succeed once
  its directory exists.
- `utils.execute_local_command` is a subprocess call. It is replaced by a
  `ToolRun` parameter that records what the run did.
- `util_which.which_ceph_authtool.path` and `constants._path_ceph_lib` come
  from modules that are not part of this model. The constants
  `AuthtoolPath` and `CephLibDir` stand in for them, and two properties rest
  on their values:
  - `Authtool.CreateArgsKeyFlags`, and through it
    `Lifecycle.WriteSecretEmptyGenerates`, assume the tool path is never
    `--gen-key` or `--add-key`;
  - `Registry.BootstrapDir`, `Registry.DefinitionShape`,
    `Registry.KeyringPathShape` and `Lifecycle.WriteSecretEmptyGenerates`
    assume the library root is an absolute path.

  Keeping admin paths apart from bootstrap paths would depend on the
  library root's value, so it is not claimed.
- Decoding the file's bytes into text is not modelled; files hold text.
  The newline translation of a Python 3 text-mode read is modelled
  (`ReadText`).
- `Authtool.CreateArgsKeyFlags`: a secret that strips to `--gen-key` puts
  both flags on the command line (`--add-key --gen-key`), and a keyring
  path spelling a key flag does the same, so both are excluded.
- `Authtool.RequestKeyFlags`: a tool, principal name, keyring path or
  capability word that spells a key flag puts that flag on the command
  line whatever the key source, so such requests are excluded.
- Python 2 byte strings are not modelled. The file also runs under Python 2,
  where `str.strip()` removes only the six ASCII whitespace characters.
- `Error.__str__` and the `%`-formatted message text are not modelled.
  `GenerationFailed` carries the argument list, exit code and streams
  instead of a message string. Logging is left out.
- Python's `%` substitution into a path template is modelled as the text
  before and after the single `%s`. Templates with other `%` directives do
  not occur in the table.
- The base class `keyring_facard` has `key_type = None`. Only its five role
  subclasses are modelled; the `KeyError` that any other key raises is
  `Registry.RoleOf` returning `None`.
- Two processes racing between the presence check and creation are not
  modelled. Operations run one at a time.
- `Authtool.InvokeAuthtool`: capabilities are a sequence, and the contract
  fixes each entry's triple in that sequence's order. The Python code
  iterates a dict, whose order comes from insertion order and is not stated
  as a promise.
- `Lifecycle.Create`: requires a fresh scratch directory. `mkdtemp`
  guarantees one; nothing in `create` checks it.
- `Lifecycle.Remove`: a refused delete is a boolean parameter. Other
  `OSError` causes are not distinguished.

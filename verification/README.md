# node-openssl core, modelled in Dafny

This project models the pure logic of `NodeOpenSSL`, a TypeScript wrapper that drives the
`openssl` binary. It has four parts:

- **`config.dfy` (module `Config`)** models the `.cnf` renderer of `src/config.ts`.
  - `generateLine` suppresses falsy values and pads the key.
  - `generateBlock` omits absent blocks. A present block gets a header, its lines joined with
    commas (an array interpolated into a template literal), and a newline.
  - `generateConfig` emits the `req`, `req_distinguished_name`, `v3_req` and `alt_names` blocks
    with their `@block` references.
  - Mappings are association lists. A JavaScript object spread is `Put`: a repeated key takes
    the new value in place, and a new key is appended.
- **`normalize.dfy` (module `Normalize`)** models `normalizeCommand`. It splits on single spaces
  and glues each backslash-terminated token to the tokens after it. A trailing run of such
  tokens is dropped.
- **`runner.dfy` (module `Runner`)** models the completion protocol of `runCommand` as a pure
  reducer over an event trace (`Out`, `Err`, `Exit`, `Fault`). The state holds:
  - the stdout and stderr chunk lists;
  - whether the process has exited, and its exit code;
  - this run's additions to the instance's shared `commandLog` (src/index.ts:65). Records that
    other runs push there, such as a late chunk of an `enc -list` run, are not part of this state;
  - the Promise's settlement, which only the first settling event sets.

  An independent description of a trace (`OutChunks`, `ErrChunks`, `LastExit`, `FiresAt`,
  `Firings`, `Attempts`) is proved equal to what the reducer computes.
- **`keygen.dfy` (module `KeyGen`)** models the validation and command assembly of
  `generatePrivateKey`. `Plan` returns one of three things: an error, a request to fetch the
  cipher list, or the `genpkey` command string with its stdin. `GeneratePrivateKey` threads the
  instance's cipher cache through. The outcome of the `enc -list` lookup is an input.

`text.dfy` (module `Text`) holds the JavaScript string primitives the source relies on:
`split` on one character, `join`, `padEnd`, `includes`, and the decimal text of an integer. It
proves the split/join round trips that the other modules use. `wrappers.dfy` holds `Option`
and `Result`.

Parameters replace the I/O:
- the events a child process would deliver form the trace;
- the cipher list (or the lookup's failure) is given;
- the binary path is part of `Runner.Invocation`.

The code has these quirks, and the model follows them as written:
- Keys are padded to `23 - |key|` characters (`keyStringLength = 23`, src/config.ts:21-23), not to column 23. So `default_md` is padded to
  13 characters, and keys of 12 or more characters are not padded (`Config.DefaultMdLine`,
  `Config.LongKeyUnpadded`).
- The digest is always `sha512`, although the comment at src/config.ts:41 mentions a `sha256` default of the `-digest` override.
- A present but empty mapping still renders a bracketed header.
- `v3_req` is always emitted.
- The `subjectAltName` reference points at `@v3_req`, not at `@alt_names`.
- With a parameter file, the algorithm is ignored rather than rejected.
- The cipher cache is consulted only by `generatePrivateKey`. A direct call of
  `getSupportedCiphers` always reruns `enc -list`.

## Model

| member | source | states |
|---|---|---|
| Config.GenerateLine | src/config.ts:17-24 | The line is empty exactly when the value is falsy (`""` or `0`). Otherwise it is the key, then spaces up to position max(\|key\|, 23 − \|key\|), then ` = `, the value's text and a newline. |
| Config.LongKeyUnpadded | src/config.ts:21-23 | A key of 12 or more characters gets no padding: the line is `key = value\n`. |
| Config.DefaultMdLine | src/config.ts:21-23 | The 10-character key `default_md` is padded to 13 characters, not to column 23. |
| Config.Put | src/config.ts:45-51 | Assigning a key into an object makes the key map to the new value. An existing key keeps its position (the key list is unchanged). A new key is appended to the key list. |
| Config.PutNew | src/config.ts:45-46 | Assigning a key that is not present appends exactly that entry at the end. |
| Config.PutOther | src/config.ts:51 | Assigning one key leaves the value of every other key unchanged. |
| Config.SpreadDisjoint | src/config.ts:50 | Spreading the entries of an object with distinct keys rebuilds it unchanged, in order. So `{...reqExtensions}` is a copy. |
| Config.GenerateBlock | src/config.ts:26-32 | The block is empty exactly when the data is absent. Present data, even an empty mapping, gives `[ title ]\n`, then the body, then a final newline. |
| Config.BlockBodyAppend | src/config.ts:30-31 | Adding an entry to a non-empty body adds `,` and that entry's line. A falsy entry therefore still leaves a lone comma. |
| Config.BlockBodyLines | src/config.ts:30-31 | If no key or value contains a comma, a non-empty body splits at commas into exactly the per-key lines in key order. It then holds exactly (entries − 1) commas. |
| Config.BlockReference | src/config.ts:35-36 | The reference has one entry `key = @blockName` exactly when the referenced data is present. Otherwise it is empty. |
| Config.ReqBlockEntries | src/config.ts:38-47 | The `req` block holds `prompt`, `default_bits`, `default_md`, `default_keyfile`, `string_mask`, `utf8` in that order. Then comes `distinguished_name = @req_distinguished_name` iff a distinguished name is given, then `req_extensions = @v3_req` iff extensions are given. |
| Config.V3BlockEntries | src/config.ts:49-52 | `v3_req` is exactly the extensions when there are no alt names. With alt names, `subjectAltName = @v3_req` is appended. If the extensions already contain `subjectAltName`, that entry is overwritten in place and every other key and value is unchanged. |
| Config.GenerateConfig | src/config.ts:34-55 | The document always starts with a newline, four spaces and the `[ req ]` header, and it ends with a newline and two spaces. |
| Config.ConfigDocument | src/config.ts:37-54 | The document is each of the four blocks after `\n    `, in order, then `\n  `. The distinguished-name and alt-names blocks are empty iff their inputs are absent. `v3_req` is never empty. |
| Normalize.NormalizeCommand | src/index.ts:43-60 | The buffering loop computes exactly the reference grouping `Arguments` of the space-split command. |
| Normalize.GroupCount | src/index.ts:47-58 | There is one argument per token that does not end in a backslash. |
| Normalize.GroupPlain | src/index.ts:47-58 | If no token ends in a backslash, every token is its own argument. |
| Normalize.ArgumentsPlain | src/index.ts:43-58 | If no space-separated token ends in a backslash, the result is exactly the split of the command on `' '`. |
| Normalize.GroupDropsTrailing | src/index.ts:47-59 | A trailing run of backslash-terminated tokens contributes nothing to the result. |
| Normalize.GroupJoin | src/index.ts:47-58 | When the last token does not end in a backslash, the result is non-empty. Joining it with spaces gives the pending tokens and the input tokens joined with spaces. |
| Normalize.ArgumentsCount | src/index.ts:44-59 | The result is never longer than the token count. |
| Normalize.ArgumentsRoundTrip | src/index.ts:44-59 | When the last token does not end in a backslash, joining the result with `' '` reproduces the command. |
| Runner.Outcome | src/index.ts:86-90 | A record leads to rejection iff its exit code is not 0 (a null code included), and to resolution iff it is 0. |
| Runner.Step | src/index.ts:101-128 | After one event: a settlement is never changed, and the log keeps its old entries and grows by at most one. A new entry appears only after an exit and is a snapshot of the current buffers. A first settlement comes from that entry or from an `error` event. |
| Runner.BuffersMatchTrace | src/index.ts:100-124 | The stdout and stderr buffers hold each stream's chunks in arrival order, whatever the interleaving. The exit flag and code are those of the last exit event. |
| Runner.LogMatchesTrace | src/index.ts:77-127 | The log holds one record per firing position, in order. Each record has the chunks received up to that point and the last exit code. |
| Runner.SettledMatchesTrace | src/index.ts:76-130 | The settlement is the first settling attempt of the trace: a record's outcome or an `error` event. |
| Runner.FiringRule | src/index.ts:101-127 | An exit fires iff (code 0 and (stdout seen or the command has ` -out `)) or (code ≠ 0 and stderr seen). A later stdout chunk fires iff the last exit code is 0, a later stderr chunk iff it is not. `error` never fires. Each firing appends one record. |
| Runner.NoCompletionBeforeExit | src/index.ts:101-127 | Without an exit the log is empty, and only an `error` event can have settled the Promise. |
| Runner.SettlementIsFinal | src/index.ts:77-91 | Once settled, no later events change the settlement, and the log only grows at its end. |
| Runner.EvidenceSettles | src/index.ts:101-127 | If the last exit's code matches the evidence received (stdout or ` -out ` for 0, stderr otherwise), the Promise has settled, whatever order the chunks and the exit came in. |
| Runner.SettledRecord | src/index.ts:78-90 | A settlement that carries a record carries `path + " " + cmd` as its command, and it is a resolution iff that record's exit code is 0. |
| KeyGen.PkeyOptBits | src/index.ts:168-170 | There is one `-pkeyopt key:value` part per option, in key order. |
| KeyGen.Plan | src/index.ts:147-191 | Without a parameter file, an algorithm outside the seven supported ones gives "Invalid algorithm" before anything else. The lookup is requested iff encrypting with no cached list. A cipher missing from the list gives "Invalid cipher". These are the only errors, and their messages are `Invalid algorithm: <algorithm>` and `Invalid cipher: <cipher>`. The `genpkey` command is produced iff the algorithm check passes and, when encrypting, the cipher is in the list. It starts `genpkey -outform PEM`. Stdin is sent iff encrypting with a password that is not a `pass:`/`env:`/`file:`/`fd:` source, and it is the password. |
| KeyGen.CommandText | src/index.ts:156-191 | The command is `genpkey -outform PEM`, then either ` -paramfile f` alone or ` -algorithm a` with ` -pkeyopt k:v` for each option. When encrypting, ` -pass <source or stdin> -<cipher>` follows. All parts are single-space separated. |
| KeyGen.GeneratePrivateKey | src/index.ts:173-181 | A cached list is reused and never fetched again. Otherwise the lookup runs only when needed and its list is cached, even when the cipher then proves invalid. A failed lookup propagates. The result never asks for another lookup. |
| KeyGen.Finish | src/index.ts:191-193 | A resolved run yields `key` = its stdout and `cmd` = its command line. Any other settlement is passed on unchanged. |
| KeyGen.KeyResultOfRun | src/index.ts:191-193 | A successful key result's `cmd` is the binary path followed by `genpkey -outform PEM`, and it comes from a run that exited with code 0. |
| KeyGen.DefaultPlan | src/index.ts:147-156 | With every default, the plan is `genpkey -outform PEM -algorithm RSA` with no stdin. |

## Left out

- `generateCSR` and `generateRootCA` (src/index.ts:196-223) are unfinished in the source: `configFile` and `key` are undefined, and the CA's `signCSR` is an empty stub. There is no behaviour to model.
- `getSupportedCiphers` (src/index.ts:135-145): its regex extraction needs a regex engine and a live binary. Its outcome is an input of `KeyGen.GeneratePrivateKey`, either a list or a failure reason. The source's regex keeps each cipher's leading `-`. A list taken from it would therefore never contain a bare name such as the default `des3`. The model does not depend on this, because it takes the list as given.
- Spawning the process, writing and closing stdin, `console.log`, and the Promise and event-emitter machinery are left out (src/index.ts:93-132). The `error` event and a synchronous spawn failure both become the `Fault` event: it rejects without a log entry. `runCommand` skips writing an empty stdin (`if (stdIn)`); this is not modelled.
- `Buffer.concat(...).toString()` byte decoding is left out: chunks are strings.
- Config.ValueText: numbers are integers written in decimal. JavaScript's floating-point values (non-integers, exponent notation, `NaN` as a falsy value) are not modelled.
- Config.GenerateLine: key lengths are counted in Unicode code points, not JavaScript's UTF-16 code units. A key character outside the Basic Multilingual Plane is one code point but two code units, so for each such character the model pads two more spaces than the source.
- JavaScript's ordering of integer-like object keys (`Object.keys`) is left out: keys keep insertion order.
- Config.ConfigParams: the distinguished-name, extension and alt-name mappings accept numbers as well as strings. This is wider than the source's string-only typing.
- Config.V3BlockEntries: requires the extension keys to be distinct. A JavaScript object guarantees this.
- `src/types.d.ts` has only type declarations. The tests contain no assertions.

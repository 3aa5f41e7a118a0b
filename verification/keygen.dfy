/** The validation and command assembly of `generatePrivateKey` in src/index.ts.
    The asynchronous cipher-list lookup becomes an explicit step: planning with no
    cached list asks for the lookup, and the session function below performs it
    with the lookup's outcome given as an input. */
module KeyGen {
  import opened Wrappers
  import opened Text
  import Config
  import Runner

  datatype EncryptOpts = EncryptOpts(password: string, cipher: string)

  /** The parameters after destructuring; `Defaults` holds the source's defaults. */
  datatype KeyParams = KeyParams(
    algorithm: string,
    encrypted: bool,
    encryptOpts: EncryptOpts,
    paramFile: Option<string>,
    pkeyOpts: Config.AList)

  const Defaults := KeyParams("RSA", false, EncryptOpts("test123", "des3"), None, [])

  const ValidAlgorithms: seq<string> := ["RSA", "RSA-PSS", "EC", "X25519", "X448", "ED25519", "ED448"]

  /** The errors `generatePrivateKey` throws before running `genpkey`. */
  datatype KeyGenError =
    | InvalidAlgorithm(algorithm: string)
    | InvalidCipher(cipher: string)
    | CipherLookupFailed(reason: string)

  /** The text of the thrown `Error`. */
  function Message(e: KeyGenError): string {
    match e
    case InvalidAlgorithm(a) => "Invalid algorithm: " + a
    case InvalidCipher(c) => "Invalid cipher: " + c
    case CipherLookupFailed(reason) => reason
  }

  /** What `generatePrivateKey` does next: throw, fetch the cipher list, or run
      `genpkey` with the given command string and stdin. */
  datatype KeyGenStep =
    | Failed(error: KeyGenError)
    | LookupCiphers
    | Invoke(command: string, stdin: Option<string>)

  /** `if (paramFile)`: an empty path is as good as none. */
  predicate HasParamFile(p: KeyParams) {
    p.paramFile.Some? && p.paramFile.value != ""
  }

  /** The algorithm check passes: skipped with a parameter file, otherwise the
      algorithm must be one of the seven supported ones. */
  predicate AlgorithmAccepted(p: KeyParams) {
    HasParamFile(p) || p.algorithm in ValidAlgorithms
  }

  /** A password starting with `pass:`, `env:`, `file:` or `fd:` names one of OpenSSL's
      passphrase sources. */
  predicate PassphraseSource(password: string) {
    StartsWith(password, "pass:") || StartsWith(password, "env:")
    || StartsWith(password, "file:") || StartsWith(password, "fd:")
  }

  /** One `-pkeyopt key:value` part per option, in key order. */
  function PkeyOptBits(opts: Config.AList): (r: seq<string>)
    ensures |r| == |opts|
    ensures forall i :: 0 <= i < |opts| ==> r[i] == "-pkeyopt " + opts[i].0 + ":" + Config.ValueText(opts[i].1)
  {
    if |opts| == 0 then [] else ["-pkeyopt " + opts[0].0 + ":" + Config.ValueText(opts[0].1)] + PkeyOptBits(opts[1..])
  }

  /** The key-selection parts: the parameter file alone, or the algorithm followed by
      its options. */
  function KeyBits(p: KeyParams): seq<string> {
    if HasParamFile(p) then ["-paramfile " + p.paramFile.value]
    else ["-algorithm " + p.algorithm] + PkeyOptBits(p.pkeyOpts)
  }

  /** The encryption part: the password itself when it names a passphrase source,
      `stdin` otherwise, then the cipher as an option. */
  function PassBit(opts: EncryptOpts): string {
    "-pass " + (if PassphraseSource(opts.password) then opts.password else "stdin") + " -" + opts.cipher
  }

  /** The command parts, joined by single spaces into the command string. */
  function CommandBits(p: KeyParams): seq<string> {
    ["genpkey -outform PEM"] + KeyBits(p) + (if p.encrypted then [PassBit(p.encryptOpts)] else [])
  }

  /** `generatePrivateKey` up to the `genpkey` run, given the cached cipher list.
      The algorithm is checked first, then (only when encrypting) the cipher list is
      needed; a cached list, even an empty one, is used as it is. */
  function Plan(p: KeyParams, cached: Option<seq<string>>): (r: KeyGenStep)
    ensures r == Failed(InvalidAlgorithm(p.algorithm)) <==> !AlgorithmAccepted(p)
    ensures r.LookupCiphers? <==> AlgorithmAccepted(p) && p.encrypted && cached.None?
    ensures r == Failed(InvalidCipher(p.encryptOpts.cipher)) <==>
      AlgorithmAccepted(p) && p.encrypted && cached.Some? && p.encryptOpts.cipher !in cached.value
    ensures r.Failed? ==> r.error == InvalidAlgorithm(p.algorithm) || r.error == InvalidCipher(p.encryptOpts.cipher)
    ensures r.Failed? ==>
              Message(r.error) == (if !AlgorithmAccepted(p) then "Invalid algorithm: " + p.algorithm
                                   else "Invalid cipher: " + p.encryptOpts.cipher)
    ensures r.Invoke? <==> AlgorithmAccepted(p) && (!p.encrypted || (cached.Some? && p.encryptOpts.cipher in cached.value))
    ensures r.Invoke? ==> StartsWith(r.command, "genpkey -outform PEM")
    ensures r.Invoke? ==> (r.stdin.Some? <==> p.encrypted && !PassphraseSource(p.encryptOpts.password))
    ensures r.Invoke? && r.stdin.Some? ==> r.stdin.value == p.encryptOpts.password
  {
    if !AlgorithmAccepted(p) then Failed(InvalidAlgorithm(p.algorithm))
    else if !p.encrypted then Invoke(JoinedCommand(p), None)
    else if cached.None? then LookupCiphers
    else if p.encryptOpts.cipher !in cached.value then Failed(InvalidCipher(p.encryptOpts.cipher))
    else
      var pw := p.encryptOpts.password;
      Invoke(JoinedCommand(p), if PassphraseSource(pw) then None else Some(pw))
  }

  function JoinedCommand(p: KeyParams): (r: string)
    ensures StartsWith(r, "genpkey -outform PEM")
  {
    var bits := CommandBits(p);
    JoinHead("genpkey -outform PEM", bits[1..], " ");
    assert bits == ["genpkey -outform PEM"] + bits[1..];
    Join(bits, " ")
  }

  lemma JoinHead(h: string, rest: seq<string>, sep: string)
    ensures StartsWith(Join([h] + rest, sep), h)
  {
    if |rest| > 0 {
      assert ([h] + rest)[1..] == rest;
    }
  }

  /** Text form of a list of parts, each preceded by a single space. */
  function Spaced(bits: seq<string>): string
    decreases |bits|
  {
    if |bits| == 0 then "" else " " + bits[0] + Spaced(bits[1..])
  }

  /** Text form of the key options: ` -pkeyopt key:value` for each, in key order. */
  function PkeyOptText(opts: Config.AList): string
    decreases |opts|
  {
    if |opts| == 0 then "" else " -pkeyopt " + opts[0].0 + ":" + Config.ValueText(opts[0].1) + PkeyOptText(opts[1..])
  }

  lemma {:induction false} JoinSpaced(h: string, bits: seq<string>)
    ensures Join([h] + bits, " ") == h + Spaced(bits)
    decreases |bits|
  {
    if |bits| > 0 {
      assert ([h] + bits)[1..] == bits;
      JoinSpaced(bits[0], bits[1..]);
      assert [bits[0]] + bits[1..] == bits;
    }
  }

  lemma {:induction false} PkeyOptSpaced(opts: Config.AList)
    ensures Spaced(PkeyOptBits(opts)) == PkeyOptText(opts)
    decreases |opts|
  {
    if |opts| > 0 {
      PkeyOptSpaced(opts[1..]);
      assert PkeyOptBits(opts)[1..] == PkeyOptBits(opts[1..]);
    }
  }

  lemma {:induction false} SpacedAppend(a: seq<string>, b: seq<string>)
    ensures Spaced(a + b) == Spaced(a) + Spaced(b)
    decreases |a|
  {
    if |a| == 0 {
      assert a + b == b;
    } else {
      assert (a + b)[0] == a[0];
      assert (a + b)[1..] == a[1..] + b;
      SpacedAppend(a[1..], b);
    }
  }

  /** Text of the key-selection parts: ` -paramfile <file>` alone, or
      ` -algorithm <name>` followed by the key options. */
  function ModeText(p: KeyParams): string {
    if HasParamFile(p) then " -paramfile " + p.paramFile.value
    else " -algorithm " + p.algorithm + PkeyOptText(p.pkeyOpts)
  }

  /** Text of the encryption part: ` -pass <source or stdin> -<cipher>` when
      encrypting, nothing otherwise. */
  function PassText(p: KeyParams): string {
    if p.encrypted
    then " -pass " + (if PassphraseSource(p.encryptOpts.password) then p.encryptOpts.password else "stdin")
         + " -" + p.encryptOpts.cipher
    else ""
  }

  lemma SpacedOne(x: string)
    ensures Spaced([x]) == " " + x
  {
    assert [x][1..] == [];
  }

  lemma ModeTextSpaced(p: KeyParams)
    ensures Spaced(KeyBits(p)) == ModeText(p)
  {
    if HasParamFile(p) {
      OptionText("-paramfile ", " -paramfile ", p.paramFile.value, []);
    } else {
      OptionText("-algorithm ", " -algorithm ", p.algorithm, PkeyOptBits(p.pkeyOpts));
      PkeyOptSpaced(p.pkeyOpts);
    }
  }

  /** A part `<option><value>` followed by more parts, in spaced text form. */
  lemma OptionText(option: string, spacedOption: string, value: string, more: seq<string>)
    requires spacedOption == " " + option
    ensures Spaced([option + value] + more) == spacedOption + value + Spaced(more)
  {
    assert ([option + value] + more)[1..] == more;
    assert " " + (option + value) == spacedOption + value;
  }

  lemma PassTextSpaced(p: KeyParams)
    ensures Spaced(if p.encrypted then [PassBit(p.encryptOpts)] else []) == PassText(p)
  {
    if p.encrypted {
      var o := p.encryptOpts;
      var src := if PassphraseSource(o.password) then o.password else "stdin";
      SpacedOne(PassBit(o));
      assert " " + ("-pass " + src + " -" + o.cipher) == (" " + "-pass ") + src + " -" + o.cipher;
    }
  }

  /** The command string `genpkey` runs with: `genpkey -outform PEM`, then either
      ` -paramfile <file>` alone (no algorithm, no key options) or ` -algorithm <name>`
      followed by ` -pkeyopt key:value` per option, then, when encrypting,
      ` -pass <source or stdin> -<cipher>`. */
  lemma CommandText(p: KeyParams, cached: Option<seq<string>>)
    requires Plan(p, cached).Invoke?
    ensures Plan(p, cached).command == "genpkey -outform PEM" + (ModeText(p) + PassText(p))
  {
    assert Plan(p, cached).command == JoinedCommand(p);
    var enc := if p.encrypted then [PassBit(p.encryptOpts)] else [];
    var tail := KeyBits(p) + enc;
    assert CommandBits(p) == ["genpkey -outform PEM"] + tail;
    JoinSpaced("genpkey -outform PEM", tail);
    SpacedAppend(KeyBits(p), enc);
    ModeTextSpaced(p);
    PassTextSpaced(p);
  }

  /** `generatePrivateKey` with the instance's cipher cache threaded through: when the
      plan asks for the cipher list, the lookup (`enc -list`, whose outcome is given)
      runs once and its list is cached even if the cipher then proves invalid; a
      failed lookup propagates and caches nothing. A cached list is never fetched
      again. */
  function GeneratePrivateKey(p: KeyParams, cache: Option<seq<string>>, lookup: Result<seq<string>, string>)
    : (r: (KeyGenStep, Option<seq<string>>))
    ensures !r.0.LookupCiphers?
    ensures !Plan(p, cache).LookupCiphers? ==> r == (Plan(p, cache), cache)
    ensures cache.Some? ==> r.1 == cache
    ensures cache.None? && Plan(p, cache).LookupCiphers? && lookup.Success? ==>
      r == (Plan(p, Some(lookup.value)), Some(lookup.value))
    ensures cache.None? && Plan(p, cache).LookupCiphers? && lookup.Failure? ==>
      r == (Failed(CipherLookupFailed(lookup.error)), None)
    ensures r.1.Some? ==> Plan(p, r.1) == r.0
  {
    var step := Plan(p, cache);
    if !step.LookupCiphers? then (step, cache)
    else
      match lookup
      case Success(list) => (Plan(p, Some(list)), Some(list))
      case Failure(reason) => (Failed(CipherLookupFailed(reason)), None)
  }

  /** What `generatePrivateKey` returns. */
  datatype PrivateKeyResult = PrivateKeyResult(key: string, cmd: string)

  /** `const { command: cmd, stdOut: key } = await this.runCommand(...)`: a resolved
      run gives its stdout as the key and its command line; any other settlement is
      passed on unchanged. */
  function Finish(s: Runner.Settlement): (r: Result<PrivateKeyResult, Runner.Settlement>)
    ensures r.Success? <==> s.Resolved?
    ensures r.Success? ==> r.value.key == s.result.stdOut && r.value.cmd == s.result.command
    ensures r.Failure? ==> r.error == s
  {
    if s.Resolved? then Success(PrivateKeyResult(s.result.stdOut, s.result.command)) else Failure(s)
  }

  /** Running a planned `genpkey` to a resolved settlement yields a result whose
      command line is the binary's path followed by `genpkey -outform PEM ...`, and
      only a run whose record exited with code 0 gets that far. */
  lemma KeyResultOfRun(path: string, p: KeyParams, cached: Option<seq<string>>, t: seq<Runner.Event>)
    requires Plan(p, cached).Invoke?
    ensures var st := Runner.Run(Runner.Invocation(path, Plan(p, cached).command), t).settled;
      st.Some? && Finish(st.value).Success? ==>
        && StartsWith(Finish(st.value).value.cmd, path + " " + "genpkey -outform PEM")
        && st.value.result.exitCode == Some(0)
  {
    ResolvedGenpkey(path, Plan(p, cached).command, t);
  }

  lemma ResolvedGenpkey(path: string, cmd: string, t: seq<Runner.Event>)
    requires StartsWith(cmd, "genpkey -outform PEM")
    ensures var st := Runner.Run(Runner.Invocation(path, cmd), t).settled;
      st.Some? && st.value.Resolved? ==>
        && StartsWith(st.value.result.command, path + " " + "genpkey -outform PEM")
        && st.value.result.exitCode == Some(0)
  {
    var inv := Runner.Invocation(path, cmd);
    Runner.SettledRecord(inv, t);
    PrefixExtends(path + " ", cmd, "genpkey -outform PEM");
  }

  lemma PrefixExtends(a: string, b: string, prefix: string)
    requires StartsWith(b, prefix)
    ensures StartsWith(a + b, a + prefix)
  {
    assert (a + b)[..|a + prefix|] == a + b[..|prefix|];
  }

  /** With every default, the key is an unencrypted RSA key and no stdin is sent. */
  lemma DefaultPlan(cached: Option<seq<string>>)
    ensures Plan(Defaults, cached) == Invoke("genpkey -outform PEM -algorithm RSA", None)
  {
    assert ValidAlgorithms[0] == "RSA";
    assert AlgorithmAccepted(Defaults);
    CommandText(Defaults, cached);
    assert ModeText(Defaults) == " -algorithm " + "RSA" + "";
    assert PassText(Defaults) == "";
    assert "genpkey -outform PEM" + (" -algorithm " + "RSA" + "" + "") == "genpkey -outform PEM -algorithm RSA";
  }
}

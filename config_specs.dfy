/**
 * Building the Kubernetes Secret and ConfigMap specifications from a list
 * of named content sources (`ConfigPair`s).
 *
 * Every pair contributes one entry to a content map, keyed by the pair's
 * name: for a Secret the value is the base64 of the source's bytes, for a
 * ConfigMap the JSON-escaped text (file text first has its Jinja
 * delimiters stripped). The spec is named after the map's Java hash, and
 * the map, the name, the namespace and the cluster name are handed to the
 * spec's template as bindings.
 *
 * The file system, the platform's default charset and the working
 * directory are not modelled; they are given as a `Platform`.
 */
module ConfigSpecs {
  import opened Wrappers
  import opened JavaFile
  import JavaInt
  import Base64
  import JsonEscape
  import JinjaStrip
  import ContentHash

  // ---------------------------------------------------------------------
  // Files and the platform
  // ---------------------------------------------------------------------

  /** What reading a whole file gives: its bytes, or an `IOException` with its message. */
  datatype ReadResult = Contents(bytes: seq<Base64.Byte>) | IoFailure(message: string)

  datatype Platform = Platform(
    workingDirectory: string,
    /** Opens and reads the file at an absolute path. */
    readFile: string -> ReadResult,
    /** `String.getBytes()` in the default charset. */
    encodeText: string -> seq<Base64.Byte>,
    /** `IOUtils.toString(InputStream)` in the default charset. */
    decodeText: seq<Base64.Byte> -> string)

  // ---------------------------------------------------------------------
  // Pairs
  // ---------------------------------------------------------------------

  /**
   * A `ConfigPair`: a name and either inline text (`contentString`) or a
   * file (`contents`). The Java fields are nullable and have setters, so
   * every combination of present and absent values is representable.
   */
  datatype ConfigPair = ConfigPair(contents: Option<File>, contentString: Option<string>, name: string)

  /** `new ConfigPair(inputFile, outputFile)`: read inputFile, store under outputFile's name. */
  function PairFromFiles(inputFile: File, outputFile: File): (p: ConfigPair)
    ensures p.contentString.None? && p.contents == Some(inputFile)
    ensures p.name == FileName(outputFile)
  {
    ConfigPair(Some(inputFile), None, FileName(outputFile))
  }

  /** `new ConfigPair(inputFile)`: read a file and store it under its own name. */
  function PairFromFile(inputFile: File): (p: ConfigPair)
    ensures p.contentString.None? && p.contents == Some(inputFile)
    ensures p.name == FileName(inputFile)
  {
    PairFromFiles(inputFile, inputFile)
  }

  /** `new ConfigPair(name, contentString)`: inline text under a given name. */
  function PairFromString(name: string, contentString: string): (p: ConfigPair)
    ensures p.contentString == Some(contentString) && p.contents.None?
    ensures p.name == name
  {
    ConfigPair(None, Some(contentString), name)
  }

  // ---------------------------------------------------------------------
  // Errors
  // ---------------------------------------------------------------------

  datatype Severity = Fatal

  datatype HalError =
    | HalException(severity: Severity, message: string)
      /** A pair with neither inline text nor a file: `new FileInputStream(null)` throws. */
    | NullPointer

  const ReadFailurePrefix: string := "Failed to read required config file: "

  /** The message names the file by its absolute path, after a fixed prefix. */
  function ReadFailureMessage(absolutePath: string, cause: string): (m: string)
    ensures |m| >= |ReadFailurePrefix| + |absolutePath|
    ensures m[..|ReadFailurePrefix|] == ReadFailurePrefix
    ensures m[|ReadFailurePrefix|..|ReadFailurePrefix| + |absolutePath|] == absolutePath
  {
    ReadFailurePrefix + absolutePath + ": " + cause
  }

  // ---------------------------------------------------------------------
  // One pair's content
  // ---------------------------------------------------------------------

  /**
   * The value a pair contributes to the content map: base64 for a Secret,
   * JSON-escaped text for a ConfigMap, with Jinja delimiters stripped from
   * file text only.
   */
  function PairContent(pair: ConfigPair, base64Encode: bool, env: Platform): Result<string, HalError>
  {
    match pair.contentString
    case Some(text) =>
      if base64Encode then Ok(Base64.Encode(env.encodeText(text)))
      else Ok(JsonEscape.Escape(text))
    case None =>
      match pair.contents
      case None => Err(NullPointer)
      case Some(file) =>
        var path := AbsolutePath(file, env.workingDirectory);
        match env.readFile(path)
        case IoFailure(cause) => Err(HalException(Fatal, ReadFailureMessage(path, cause)))
        case Contents(bytes) =>
          if base64Encode then Ok(Base64.Encode(bytes))
          else Ok(JsonEscape.Escape(JinjaStrip.Strip(env.decodeText(bytes))))
  }

  /**
   * Each entry carries exactly its source's content, as the matching reader
   * shows: base64-decoding a Secret value gives the source bytes (the
   * inline text's bytes in the default charset, or the file's bytes);
   * JSON-unescaping a ConfigMap value gives the inline text unchanged, or
   * the file text with its Jinja delimiters stripped. A file that cannot be
   * read gives a fatal error naming its absolute path; a pair with neither
   * text nor file gives a null-pointer failure.
   */
  lemma PairContentFaithful(pair: ConfigPair, base64Encode: bool, env: Platform)
    ensures var r := PairContent(pair, base64Encode, env);
      (pair.contentString.Some? && base64Encode ==>
        r.Ok? && Base64.Decode(r.value) == Some(env.encodeText(pair.contentString.value))) &&
      (pair.contentString.Some? && !base64Encode ==>
        r.Ok? && JsonEscape.Unescape(r.value) == Some(pair.contentString.value)) &&
      (pair.contentString.None? && pair.contents.None? ==> r == Err(NullPointer))
    ensures var r := PairContent(pair, base64Encode, env);
      pair.contentString.None? && pair.contents.Some? ==>
      var path := AbsolutePath(pair.contents.value, env.workingDirectory);
      match env.readFile(path)
      case IoFailure(cause) => r == Err(HalException(Fatal, ReadFailureMessage(path, cause)))
      case Contents(bytes) =>
        r.Ok? &&
        if base64Encode then Base64.Decode(r.value) == Some(bytes)
        else JsonEscape.Unescape(r.value) == Some(JinjaStrip.Strip(env.decodeText(bytes)))
  {
    match pair.contentString
    case Some(text) =>
      Base64.RoundTrip(env.encodeText(text));
      JsonEscape.RoundTrip(text);
    case None =>
      if pair.contents.Some? {
        var path := AbsolutePath(pair.contents.value, env.workingDirectory);
        if env.readFile(path).Contents? {
          var bytes := env.readFile(path).bytes;
          Base64.RoundTrip(bytes);
          JsonEscape.RoundTrip(JinjaStrip.Strip(env.decodeText(bytes)));
        }
      }
  }

  // ---------------------------------------------------------------------
  // The content map
  // ---------------------------------------------------------------------

  /**
   * The content map after putting the pairs in list order into an empty
   * `HashMap`, or the first pair's failure. This is the specification of
   * the loop in `CreateConfigSpec`.
   */
  function ContentMap(pairs: seq<ConfigPair>, base64Encode: bool, env: Platform): Result<map<string, string>, HalError>
  {
    if pairs == [] then Ok(map[])
    else
      match ContentMap(pairs[..|pairs| - 1], base64Encode, env)
      case Err(e) => Err(e)
      case Ok(m) =>
        var last := pairs[|pairs| - 1];
        match PairContent(last, base64Encode, env)
        case Err(e) => Err(e)
        case Ok(v) => Ok(m[last.name := v])
  }

  function Names(pairs: seq<ConfigPair>): set<string>
  {
    set i | 0 <= i < |pairs| :: pairs[i].name
  }

  /** No later pair has the same name as pair i. */
  predicate LastWithName(pairs: seq<ConfigPair>, i: int)
    requires 0 <= i < |pairs|
  {
    forall j :: i < j < |pairs| ==> pairs[j].name != pairs[i].name
  }

  predicate DistinctNames(pairs: seq<ConfigPair>)
  {
    forall i, j :: 0 <= i < j < |pairs| ==> pairs[i].name != pairs[j].name
  }

  lemma NamesSnoc(pairs: seq<ConfigPair>)
    requires pairs != []
    ensures Names(pairs) == Names(pairs[..|pairs| - 1]) + {pairs[|pairs| - 1].name}
  {
    var init := pairs[..|pairs| - 1];
    forall k | k in Names(pairs) ensures k in Names(init) + {pairs[|pairs| - 1].name} {
      var i :| 0 <= i < |pairs| && pairs[i].name == k;
      if i < |pairs| - 1 {
        assert init[i].name == k;
      }
    }
    forall k | k in Names(init) ensures k in Names(pairs) {
      var i :| 0 <= i < |init| && init[i].name == k;
      assert pairs[i].name == k;
    }
  }

  /** When every pair can be read, the keys are exactly the pair names. */
  lemma {:induction false} ContentMapKeys(pairs: seq<ConfigPair>, base64Encode: bool, env: Platform)
    requires ContentMap(pairs, base64Encode, env).Ok?
    ensures ContentMap(pairs, base64Encode, env).value.Keys == Names(pairs)
  {
    if pairs != [] {
      ContentMapKeys(pairs[..|pairs| - 1], base64Encode, env);
      NamesSnoc(pairs);
    }
  }

  /** Each name holds the content of the last pair that carries it: the last write wins. */
  lemma {:induction false} ContentMapLastWins(pairs: seq<ConfigPair>, base64Encode: bool, env: Platform, i: int)
    requires ContentMap(pairs, base64Encode, env).Ok?
    requires 0 <= i < |pairs| && LastWithName(pairs, i)
    ensures PairContent(pairs[i], base64Encode, env).Ok?
    ensures pairs[i].name in ContentMap(pairs, base64Encode, env).value
    ensures ContentMap(pairs, base64Encode, env).value[pairs[i].name] == PairContent(pairs[i], base64Encode, env).value
  {
    var init := pairs[..|pairs| - 1];
    if i < |pairs| - 1 {
      assert init[i] == pairs[i];
      assert LastWithName(init, i);
      ContentMapLastWins(init, base64Encode, env, i);
    }
  }

  /** Building fails exactly when some pair fails. */
  lemma {:induction false} ContentMapFailure(pairs: seq<ConfigPair>, base64Encode: bool, env: Platform)
    ensures ContentMap(pairs, base64Encode, env).Err? <==>
      exists i :: 0 <= i < |pairs| && PairContent(pairs[i], base64Encode, env).Err?
  {
    if pairs != [] {
      var init := pairs[..|pairs| - 1];
      ContentMapFailure(init, base64Encode, env);
      if ContentMap(init, base64Encode, env).Err? {
        var i :| 0 <= i < |init| && PairContent(init[i], base64Encode, env).Err?;
        assert pairs[i] == init[i];
      } else {
        assert forall j :: 0 <= j < |init| ==> pairs[j] == init[j];
      }
    }
  }

  /** A failed build reports the failure of the first failing pair in list order. */
  lemma {:induction false} ContentMapFirstFailure(pairs: seq<ConfigPair>, base64Encode: bool, env: Platform)
    ensures ContentMap(pairs, base64Encode, env).Err? ==>
      exists i :: 0 <= i < |pairs| && PairContent(pairs[i], base64Encode, env) == Err(ContentMap(pairs, base64Encode, env).error) &&
        forall j :: 0 <= j < i ==> PairContent(pairs[j], base64Encode, env).Ok?
  {
    if pairs != [] {
      var init := pairs[..|pairs| - 1];
      ContentMapFirstFailure(init, base64Encode, env);
      if ContentMap(init, base64Encode, env).Err? {
        var i :| 0 <= i < |init| && PairContent(init[i], base64Encode, env) == Err(ContentMap(init, base64Encode, env).error) &&
          forall j :: 0 <= j < i ==> PairContent(init[j], base64Encode, env).Ok?;
        assert pairs[i] == init[i];
        assert forall j :: 0 <= j < i ==> pairs[j] == init[j];
      } else {
        ContentMapFailure(init, base64Encode, env);
        assert forall j :: 0 <= j < |init| ==> pairs[j] == init[j];
      }
    }
  }

  /** In a list with distinct names, every element occurs once. */
  lemma OnceInDistinct(s: seq<ConfigPair>, a: int)
    requires DistinctNames(s)
    requires 0 <= a < |s|
    ensures multiset(s)[s[a]] == 1
  {
    assert s == s[..a] + [s[a]] + s[a + 1..];
    assert forall k :: 0 <= k < a ==> s[..a][k].name != s[a].name;
    var after := s[a + 1..];
    forall k | 0 <= k < |after| ensures after[k].name != s[a].name {
      assert after[k] == s[a + 1 + k];
    }
    assert s[a] !in s[..a];
    assert s[a] !in s[a + 1..];
  }

  /** An element at two positions occurs at least twice. */
  lemma TwiceInSeq(s: seq<ConfigPair>, i: int, j: int)
    requires 0 <= i < j < |s| && s[i] == s[j]
    ensures multiset(s)[s[i]] >= 2
  {
    assert s == s[..i] + [s[i]] + s[i + 1..j] + [s[j]] + s[j + 1..];
  }

  /** A permutation of a list with distinct names has distinct names. */
  lemma PermutationKeepsDistinct(pairs: seq<ConfigPair>, others: seq<ConfigPair>)
    requires multiset(pairs) == multiset(others)
    requires DistinctNames(pairs)
    ensures DistinctNames(others)
  {
    forall i, j | 0 <= i < j < |others| ensures others[i].name != others[j].name {
      assert others[i] in multiset(pairs) && others[j] in multiset(pairs);
      var a :| 0 <= a < |pairs| && pairs[a] == others[i];
      var b :| 0 <= b < |pairs| && pairs[b] == others[j];
      if a == b {
        TwiceInSeq(others, i, j);
        OnceInDistinct(pairs, a);
      }
    }
  }

  /** Every pair of a permutation of a list that builds can itself be encoded. */
  lemma PermutationBuilds(pairs: seq<ConfigPair>, others: seq<ConfigPair>, base64Encode: bool, env: Platform)
    requires multiset(pairs) == multiset(others)
    requires ContentMap(pairs, base64Encode, env).Ok?
    ensures ContentMap(others, base64Encode, env).Ok?
  {
    ContentMapFailure(pairs, base64Encode, env);
    ContentMapFailure(others, base64Encode, env);
    forall i | 0 <= i < |others| ensures PairContent(others[i], base64Encode, env).Ok? {
      assert others[i] in multiset(pairs);
    }
  }

  /** A key of one build is a key of the other, with the same value. */
  lemma PermutationEntry(pairs: seq<ConfigPair>, others: seq<ConfigPair>, base64Encode: bool, env: Platform, i: int)
    requires multiset(pairs) == multiset(others)
    requires DistinctNames(pairs) && DistinctNames(others)
    requires ContentMap(pairs, base64Encode, env).Ok? && ContentMap(others, base64Encode, env).Ok?
    requires 0 <= i < |pairs|
    ensures pairs[i].name in ContentMap(pairs, base64Encode, env).value
    ensures pairs[i].name in ContentMap(others, base64Encode, env).value
    ensures ContentMap(others, base64Encode, env).value[pairs[i].name] == ContentMap(pairs, base64Encode, env).value[pairs[i].name]
  {
    assert pairs[i] in multiset(others);
    var j :| 0 <= j < |others| && others[j] == pairs[i];
    assert LastWithName(pairs, i) && LastWithName(others, j);
    ContentMapLastWins(pairs, base64Encode, env, i);
    ContentMapLastWins(others, base64Encode, env, j);
  }

  /** A permutation has the same names. */
  lemma PermutationNames(pairs: seq<ConfigPair>, others: seq<ConfigPair>)
    requires multiset(pairs) == multiset(others)
    ensures Names(pairs) == Names(others)
  {
    forall k | k in Names(pairs) ensures k in Names(others) {
      var i :| 0 <= i < |pairs| && pairs[i].name == k;
      assert pairs[i] in multiset(others);
      var j :| 0 <= j < |others| && others[j] == pairs[i];
    }
    forall k | k in Names(others) ensures k in Names(pairs) {
      var j :| 0 <= j < |others| && others[j].name == k;
      assert others[j] in multiset(pairs);
      var i :| 0 <= i < |pairs| && pairs[i] == others[j];
    }
  }

  /**
   * With distinct names, the content map does not depend on the order of
   * the pairs: any permutation of a list that builds gives the same map.
   */
  lemma ContentMapPermutation(pairs: seq<ConfigPair>, others: seq<ConfigPair>, base64Encode: bool, env: Platform)
    requires multiset(pairs) == multiset(others)
    requires DistinctNames(pairs)
    requires ContentMap(pairs, base64Encode, env).Ok?
    ensures ContentMap(others, base64Encode, env) == ContentMap(pairs, base64Encode, env)
  {
    PermutationBuilds(pairs, others, base64Encode, env);
    PermutationKeepsDistinct(pairs, others);
    var m := ContentMap(pairs, base64Encode, env).value;
    var n := ContentMap(others, base64Encode, env).value;
    ContentMapKeys(pairs, base64Encode, env);
    ContentMapKeys(others, base64Encode, env);
    PermutationNames(pairs, others);
    forall k | k in m ensures n[k] == m[k] {
      var i :| 0 <= i < |pairs| && pairs[i].name == k;
      PermutationEntry(pairs, others, base64Encode, env, i);
    }
    SameMap(m, n);
  }

  lemma SameMap(m: map<string, string>, n: map<string, string>)
    requires m.Keys == n.Keys
    requires forall k :: k in m ==> n[k] == m[k]
    ensures m == n
  {
  }

  // ---------------------------------------------------------------------
  // The name
  // ---------------------------------------------------------------------

  /** `name + "-" + Math.abs(contentMap.hashCode())`. */
  ghost function ArtifactName(name: string, contentMap: map<string, string>): string
  {
    name + "-" + JavaInt.DecimalString(JavaInt.Signed(JavaInt.JavaAbs(ContentHash.MapHash(contentMap))))
  }

  /**
   * The suffix is the absolute value of the map hash, except for the one
   * hash -2^31, whose `Math.abs` is still negative: then the name has a
   * second '-' right after the first.
   */
  lemma ArtifactNameSuffix(name: string, contentMap: map<string, string>)
    ensures var h := JavaInt.Signed(ContentHash.MapHash(contentMap));
      var suffix := ArtifactName(name, contentMap)[|name| + 1..];
      (h != JavaInt.MinInt ==> suffix == JavaInt.DecimalString(if h < 0 then -h else h)) &&
      (suffix[0] == '-' <==> h == JavaInt.MinInt)
  {
    var hash := ContentHash.MapHash(contentMap);
    var digits := JavaInt.DecimalString(JavaInt.Signed(JavaInt.JavaAbs(hash)));
    assert ArtifactName(name, contentMap)[|name| + 1..] == digits;
    JavaInt.JavaAbsValue(hash);
  }

  /** A map whose hash is -2^31 gives the name a negative suffix. */
  lemma MinHashName(name: string, contentMap: map<string, string>)
    requires ContentHash.MapHash(contentMap) == 0x8000_0000
    ensures ArtifactName(name, contentMap) == name + "-" + "-2147483648"
  {
    JavaInt.AbsMinIntString();
  }

  /**
   * A concrete content map whose hash is -2^31: "key".hashCode() is 106079
   * and "accdsahv".hashCode() is 0x80019E5F, whose xor is 0x80000000.
   */
  lemma NegativeSuffixWitness()
    ensures JavaInt.Signed(ContentHash.MapHash(map["key" := "accdsahv"])) == JavaInt.MinInt
    ensures ArtifactName("app", map["key" := "accdsahv"]) == "app" + "-" + "-2147483648"
  {
    ContentHash.WitnessHash();
    MinHashName("app", map["key" := "accdsahv"]);
  }

  /** Permuting a list of pairs with distinct names does not change the artifact name. */
  lemma ArtifactNamePermutation(name: string, pairs: seq<ConfigPair>, others: seq<ConfigPair>, base64Encode: bool, env: Platform)
    requires multiset(pairs) == multiset(others)
    requires DistinctNames(pairs)
    requires ContentMap(pairs, base64Encode, env).Ok?
    ensures ContentMap(others, base64Encode, env).Ok?
    ensures ArtifactName(name, ContentMap(others, base64Encode, env).value) == ArtifactName(name, ContentMap(pairs, base64Encode, env).value)
  {
    ContentMapPermutation(pairs, others, base64Encode, env);
  }

  /** A cleaned statement block whose pieces need no escaping is stored as the pieces. */
  lemma EscapedBlock(a: string, b: string, d: string)
    requires JinjaStrip.Plain(a) && JinjaStrip.Plain(b) && JinjaStrip.Plain(d)
    requires JsonEscape.Escape(a) == a && JsonEscape.Escape(b) == b && JsonEscape.Escape(d) == d
    ensures JsonEscape.Escape(JinjaStrip.Strip(JinjaStrip.OpenDelimiter + (a + (JinjaStrip.CloseDelimiter +
      (b + (JinjaStrip.OpenDelimiter + (d + JinjaStrip.CloseDelimiter))))))) == a + (b + d)
  {
    JinjaStrip.StripBlock(a, b, d);
    JsonEscape.EscapeAppend(b, d);
    JsonEscape.EscapeAppend(a, b + d);
  }

  /** The scenario's template text is a statement block around plain pieces. */
  lemma ScenarioTemplate()
    ensures "{% if x %}shell{% endif %}" == JinjaStrip.OpenDelimiter + (" if x " + (JinjaStrip.CloseDelimiter +
      ("shell" + (JinjaStrip.OpenDelimiter + (" endif " + JinjaStrip.CloseDelimiter)))))
    ensures JinjaStrip.Plain(" if x ") && JinjaStrip.Plain("shell") && JinjaStrip.Plain(" endif ")
    ensures " if x " + ("shell" + " endif ") == " if x shell endif "
  {
  }

  // None of the scenario's pieces needs escaping; one lemma each keeps the proofs small.
  lemma IfPieceUnescaped()
    ensures JsonEscape.Escape(" if x ") == " if x "
  {
  }

  lemma ShellPieceUnescaped()
    ensures JsonEscape.Escape("shell") == "shell"
  {
  }

  lemma EndifPieceUnescaped()
    ensures JsonEscape.Escape(" endif ") == " endif "
  {
    assert JsonEscape.Escape("if ") == "if ";
  }

  /** The scenario's template text: delimiters stripped, nothing left to escape. */
  lemma ScenarioText(text: string)
    requires text == "{% if x %}shell{% endif %}"
    ensures JsonEscape.Escape(JinjaStrip.Strip(text)) == " if x shell endif "
  {
    ScenarioTemplate();
    IfPieceUnescaped();
    ShellPieceUnescaped();
    EndifPieceUnescaped();
    EscapedBlock(" if x ", "shell", " endif ");
  }

  /** The scenario's file is stored under its own name. */
  lemma ScenarioFileName()
    ensures PairFromFile(File("/cfg/run.sh")).name == "run.sh"
  {
    assert "/cfg/run.sh" == "/cfg" + "/" + "run.sh";
    JavaFile.FileNameIn("/cfg", "run.sh");
  }

  /** The scenario's file content: the template text cleaned. */
  lemma ScenarioFile(env: Platform, bytes: seq<Base64.Byte>, path: string)
    requires path == "/cfg/run.sh"
    requires env.readFile(path) == Contents(bytes)
    requires env.decodeText(bytes) == "{% if x %}shell{% endif %}"
    ensures PairContent(PairFromFile(File(path)), false, env) == Ok(" if x shell endif ")
  {
    assert path == "/" + "cfg" + "/" + "run.sh";
    JavaFile.NormalizeAbsolute("cfg", "run.sh", env.workingDirectory);
    ScenarioText(env.decodeText(bytes));
  }

  /** Two pairs that both encode give a map with the second one's entry put last. */
  lemma ContentMapOfTwo(first: ConfigPair, second: ConfigPair, base64Encode: bool, env: Platform)
    requires PairContent(first, base64Encode, env).Ok? && PairContent(second, base64Encode, env).Ok?
    ensures ContentMap([first, second], base64Encode, env) ==
      Ok(map[first.name := PairContent(first, base64Encode, env).value][second.name := PairContent(second, base64Encode, env).value])
  {
    var pairs := [first, second];
    assert pairs[..1] == [first];
    assert [first][..0] == [];
    assert ContentMap([first], base64Encode, env) == Ok(map[first.name := PairContent(first, base64Encode, env).value]);
  }

  /** The scenario's inline text needs no escaping. */
  lemma ScenarioInline(env: Platform)
    ensures PairContent(PairFromString("greeting", "hello"), false, env) == Ok("hello")
  {
    assert JsonEscape.Escape("hello") == "hello";
  }

  /**
   * A ConfigMap built from the inline text "hello" under "greeting" and a
   * template file /cfg/run.sh: the inline text is stored as it is, the file
   * under its own name with its Jinja delimiters gone.
   */
  lemma ConfigMapScenario(env: Platform, bytes: seq<Base64.Byte>)
    requires env.readFile("/cfg/run.sh") == Contents(bytes)
    requires env.decodeText(bytes) == "{% if x %}shell{% endif %}"
    ensures ContentMap([PairFromString("greeting", "hello"), PairFromFile(File("/cfg/run.sh"))], false, env)
      == Ok(map["greeting" := "hello", "run.sh" := " if x shell endif "])
  {
    ScenarioInline(env);
    ScenarioFileName();
    ScenarioFile(env, bytes, "/cfg/run.sh");
    ContentMapOfTwo(PairFromString("greeting", "hello"), PairFromFile(File("/cfg/run.sh")), false, env);
  }

  // ---------------------------------------------------------------------
  // Failures
  // ---------------------------------------------------------------------

  /** Once a prefix of the list fails, the whole list fails with the same error. */
  lemma {:induction false} ContentMapFailurePersists(pairs: seq<ConfigPair>, i: int, base64Encode: bool, env: Platform)
    requires 0 <= i <= |pairs|
    requires ContentMap(pairs[..i], base64Encode, env).Err?
    ensures ContentMap(pairs, base64Encode, env) == ContentMap(pairs[..i], base64Encode, env)
    decreases |pairs| - i
  {
    if i < |pairs| {
      assert pairs[..i + 1][..i] == pairs[..i];
      ContentMapFailurePersists(pairs, i + 1, base64Encode, env);
    } else {
      assert pairs[..i] == pairs;
    }
  }

  /**
   * A file that cannot be read, after pairs that all can, fails the whole
   * build with a fatal error naming its absolute path.
   */
  lemma {:induction false} UnreadableFileFails(pairs: seq<ConfigPair>, i: int, base64Encode: bool, env: Platform)
    requires 0 <= i < |pairs|
    requires forall j :: 0 <= j < i ==> PairContent(pairs[j], base64Encode, env).Ok?
    requires pairs[i].contentString.None? && pairs[i].contents.Some?
    requires env.readFile(AbsolutePath(pairs[i].contents.value, env.workingDirectory)).IoFailure?
    ensures var path := AbsolutePath(pairs[i].contents.value, env.workingDirectory);
      ContentMap(pairs, base64Encode, env) ==
        Err(HalException(Fatal, ReadFailureMessage(path, env.readFile(path).message)))
  {
    var prefix := pairs[..i + 1];
    ContentMapFailure(pairs[..i], base64Encode, env);
    assert forall j :: 0 <= j < i ==> pairs[..i][j] == pairs[j];
    assert prefix[..i] == pairs[..i];
    ContentMapFailurePersists(pairs, i + 1, base64Encode, env);
  }

  // ---------------------------------------------------------------------
  // The specification objects
  // ---------------------------------------------------------------------

  /** A value bound for the template: the content map, or a plain string. */
  datatype Binding = Files(contents: map<string, string>) | Text(value: string)

  /**
   * A `JinjaJarResource`: the path of a template and the bindings it will
   * be rendered with, which start empty.
   */
  class TemplatedResource {
    const path: string
    var bindings: map<string, Binding>

    constructor (path: string)
      ensures this.path == path && bindings == map[]
    {
      this.path := path;
      bindings := map[];
    }

    /** `extendBindings`: adds every binding, replacing an earlier one of the same name. */
    method ExtendBindings(extra: map<string, Binding>)
      modifies this
      ensures bindings == old(bindings) + extra
    {
      bindings := bindings + extra;
    }
  }

  /** `SecretSpec` or `ConfigMapSpec`. */
  datatype Kind = SecretKind | ConfigMapKind

  const SecretTemplate: string := "/kubernetes/manifests/secret.yml"
  const ConfigMapTemplate: string := "/kubernetes/manifests/configMap.yml"

  /** A `ConfigSpec`: the template resource and, once built, the artifact name. */
  class ConfigSpec {
    const kind: Kind
    var resource: TemplatedResource
    var name: Option<string>

    /** `new SecretSpec()` or `new ConfigMapSpec()` followed by `spec.resource = resource`. */
    constructor (kind: Kind, resource: TemplatedResource)
      ensures this.kind == kind && this.resource == resource && name == None
    {
      this.kind := kind;
      this.resource := resource;
      name := None;
    }
  }

  /** The four bindings every spec passes to its template. */
  function SpecBindings(contentMap: map<string, string>, specName: string, namespace: string, clusterName: string): (b: map<string, Binding>)
    ensures b.Keys == {"files", "name", "namespace", "clusterName"}
    ensures b["files"] == Files(contentMap) && b["name"] == Text(specName)
    ensures b["namespace"] == Text(namespace) && b["clusterName"] == Text(clusterName)
  {
    map["files" := Files(contentMap), "name" := Text(specName), "namespace" := Text(namespace), "clusterName" := Text(clusterName)]
  }

  /**
   * `createConfigSpec`: put every pair's content into the content map in
   * list order, name the spec after the map's hash, and extend the
   * template's bindings. A pair that fails stops the build: no name is set
   * and no binding is added.
   */
  method CreateConfigSpec(namespace: string, clusterName: string, name: string, files: seq<ConfigPair>,
                          spec: ConfigSpec, base64Encode: bool, env: Platform)
    returns (r: Result<ConfigSpec, HalError>)
    modifies spec, spec.resource
    ensures spec.resource == old(spec.resource)
    ensures ContentMap(files, base64Encode, env).Err? ==>
      r == Err(ContentMap(files, base64Encode, env).error) &&
      spec.name == old(spec.name) && spec.resource.bindings == old(spec.resource.bindings)
    ensures ContentMap(files, base64Encode, env).Ok? ==>
      var contentMap := ContentMap(files, base64Encode, env).value;
      var specName := ArtifactName(name, contentMap);
      r == Ok(spec) && spec.name == Some(specName) &&
      spec.resource.bindings == old(spec.resource.bindings) + SpecBindings(contentMap, specName, namespace, clusterName)
  {
    var contentMap: map<string, string> := map[];
    var i := 0;
    while i < |files|
      invariant 0 <= i <= |files|
      invariant ContentMap(files[..i], base64Encode, env) == Ok(contentMap)
    {
      assert files[..i + 1][..i] == files[..i];
      var contents := PairContent(files[i], base64Encode, env);
      if contents.Err? {
        ContentMapFailurePersists(files, i + 1, base64Encode, env);
        return Err(contents.error);
      }
      contentMap := contentMap[files[i].name := contents.value];
      i := i + 1;
    }
    assert files[..i] == files;
    var hash := ContentHash.HashCode(contentMap);
    var specName := name + "-" + JavaInt.DecimalString(JavaInt.Signed(JavaInt.JavaAbs(hash)));
    spec.name := Some(specName);
    var bindings := SpecBindings(contentMap, specName, namespace, clusterName);
    spec.resource.ExtendBindings(bindings);
    return Ok(spec);
  }

  /** The state of a freshly built spec: its name and exactly the four bindings. */
  ghost predicate BuiltFrom(spec: ConfigSpec, namespace: string, clusterName: string, name: string,
                            files: seq<ConfigPair>, base64Encode: bool, env: Platform)
    reads spec, spec.resource
  {
    var c := ContentMap(files, base64Encode, env);
    c.Ok? &&
    spec.name == Some(ArtifactName(name, c.value)) &&
    spec.resource.bindings == SpecBindings(c.value, ArtifactName(name, c.value), namespace, clusterName)
  }

  /** `createSecretSpec`: a Secret from the secret template, values base64-encoded. */
  method CreateSecretSpec(namespace: string, clusterName: string, name: string, files: seq<ConfigPair>, env: Platform)
    returns (r: Result<ConfigSpec, HalError>)
    ensures ContentMap(files, true, env).Err? ==> r == Err(ContentMap(files, true, env).error)
    ensures ContentMap(files, true, env).Ok? ==>
      r.Ok? && fresh(r.value) && fresh(r.value.resource) &&
      r.value.kind == SecretKind && r.value.resource.path == SecretTemplate &&
      BuiltFrom(r.value, namespace, clusterName, name, files, true, env)
  {
    var resource := new TemplatedResource(SecretTemplate);
    var spec := new ConfigSpec(SecretKind, resource);
    r := CreateConfigSpec(namespace, clusterName, name, files, spec, true, env);
  }

  /** `createConfigMapSpec`: a ConfigMap from the config-map template, values JSON-escaped. */
  method CreateConfigMapSpec(namespace: string, clusterName: string, name: string, files: seq<ConfigPair>, env: Platform)
    returns (r: Result<ConfigSpec, HalError>)
    ensures ContentMap(files, false, env).Err? ==> r == Err(ContentMap(files, false, env).error)
    ensures ContentMap(files, false, env).Ok? ==>
      r.Ok? && fresh(r.value) && fresh(r.value.resource) &&
      r.value.kind == ConfigMapKind && r.value.resource.path == ConfigMapTemplate &&
      BuiltFrom(r.value, namespace, clusterName, name, files, false, env)
  {
    var resource := new TemplatedResource(ConfigMapTemplate);
    var spec := new ConfigSpec(ConfigMapKind, resource);
    r := CreateConfigSpec(namespace, clusterName, name, files, spec, false, env);
  }
}

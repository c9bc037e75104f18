# Halyard Kubernetes V2 config artifacts, modelled in Dafny

Halyard deploys Spinnaker. For the Kubernetes V2 provider it packages each
service's configuration files as a Kubernetes **Secret** or **ConfigMap**.
`KubernetesV2Utils` turns a list of named content sources (`ConfigPair`s)
into a spec that names the artifact and holds the template bindings:

- A Secret stores each source's bytes in standard base64, as in section 4
  of RFC 4648. Inline text is first turned into bytes with the platform
  charset.
- A ConfigMap stores the JSON-escaped text, as Jackson's `quoteAsString`
  produces it. Text read from a file first goes through one pass that
  deletes every `{%` and then one pass that deletes every `%}`. A deletion
  can join a new delimiter (`{{%%` becomes `{%`), and that one is kept.
- Entries are keyed by source name, and the last source with a given name
  wins.
- The artifact is named `name + "-" + Math.abs(contentMap.hashCode())`.
  That is Java's `HashMap` hash: the 32-bit wrap-around sum, over the
  entries, of `key.hashCode() ^ value.hashCode()`.
- The content map, the name, the namespace and the cluster name become the
  template's bindings.

The same class builds `kubectl` argument lists from a Kubernetes account.

Modules:

| file | module | what |
|---|---|---|
| `wrappers.dfy` | `Wrappers` | `Option` and `Result` |
| `java_int.dfy` | `JavaInt` | 32-bit `int` arithmetic, `String.hashCode` over UTF-16 code units and its closed form, `Math.abs`, `Integer.toString` and a parser for it |
| `java_file.dfy` | `JavaFile` | `java.io.File` on Unix: path normalisation, `getName` and `getAbsolutePath` |
| `base64.dfy` | `Base64` | the RFC 4648 encoder, a decoder, and the round trip between them |
| `json_escape.dfy` | `JsonEscape` | Jackson's string quoting, an RFC 8259 string-body reader, and the round trip between them |
| `jinja_strip.dfy` | `JinjaStrip` | the two delimiter-removal passes |
| `content_hash.dfy` | `ContentHash` | `AbstractMap.hashCode`: an order-free definition and the loop over the entries |
| `kubectl.dfy` | `Kubectl` | `kubectlPrefix` and the two pod commands |
| `config_specs.dfy` | `ConfigSpecs` | `ConfigPair`, one pair's content, the content map, the name, and the spec builders |

`createConfigSpec` is modelled twice, and the two are tied together:

- `ConfigSpecs.ContentMap` is a function: the map after putting the pairs
  in list order, or the first pair's error. The lemmas about the map are
  proved about it.
- `ConfigSpecs.CreateConfigSpec` is the loop itself. It updates a
  `ConfigSpec` object and its `TemplatedResource`, and its postcondition
  ties the new state to `ContentMap`.

The namespace given to the pod commands, the account's context and
kubeconfig file, and the inline text and file of a `ConfigPair` are
`Option`s, with Java `null` as `None`. The other strings are never `null`
here (see "## Left out"). An exception is an `Err` result.

## Model

| member | source | states |
|---|---|---|
| JavaInt.Add | halyard-deploy/src/main/java/com/netflix/spinnaker/halyard/deploy/spinnaker/v1/service/distributed/kubernetes/v2/KubernetesV2Utils.java:162 | Java `int` addition: the true sum, or the sum less 2^32 when it overflows |
| JavaInt.Signed | halyard-deploy/src/main/java/com/netflix/spinnaker/halyard/deploy/spinnaker/v1/service/distributed/kubernetes/v2/KubernetesV2Utils.java:162 | reads a 32-bit pattern as two's complement; it is non-negative exactly below 2^31 |
| JavaInt.JavaAbsValue | halyard-deploy/src/main/java/com/netflix/spinnaker/halyard/deploy/spinnaker/v1/service/distributed/kubernetes/v2/KubernetesV2Utils.java:162 | `Math.abs` gives \|x\| for every int except -2^31, which it returns unchanged; the result is negative only for that one input |
| JavaInt.Utf16Units | halyard-deploy/src/main/java/com/netflix/spinnaker/halyard/deploy/spinnaker/v1/service/distributed/kubernetes/v2/KubernetesV2Utils.java:162 | a character is one UTF-16 code unit, the character itself, inside the Basic Multilingual Plane, and two units below 2^16 outside it |
| JavaInt.Utf16Surrogates | halyard-deploy/src/main/java/com/netflix/spinnaker/halyard/deploy/spinnaker/v1/service/distributed/kubernetes/v2/KubernetesV2Utils.java:162 | outside the Basic Multilingual Plane the two units are a high surrogate in [0xD800, 0xDC00) and a low surrogate in [0xDC00, 0xE000) that together encode the character |
| JavaInt.Utf16 | halyard-deploy/src/main/java/com/netflix/spinnaker/halyard/deploy/spinnaker/v1/service/distributed/kubernetes/v2/KubernetesV2Utils.java:162 | the code units `String.hashCode` iterates over: between \|s\| and 2\|s\| of them, each below 2^16 |
| JavaInt.Utf16Append | halyard-deploy/src/main/java/com/netflix/spinnaker/halyard/deploy/spinnaker/v1/service/distributed/kubernetes/v2/KubernetesV2Utils.java:162 | the code units of a concatenation are the concatenated code units |
| JavaInt.StringHashSnoc | halyard-deploy/src/main/java/com/netflix/spinnaker/halyard/deploy/spinnaker/v1/service/distributed/kubernetes/v2/KubernetesV2Utils.java:162 | appending one BMP character performs one `31 * h + c` step of `String.hashCode` |
| JavaInt.PolySnoc | halyard-deploy/src/main/java/com/netflix/spinnaker/halyard/deploy/spinnaker/v1/service/distributed/kubernetes/v2/KubernetesV2Utils.java:162 | the documented polynomial s[0]·31^(n-1) + … + s[n-1] grows by one `31 * h + c` step when a unit is appended |
| JavaInt.UnitsHashPoly | halyard-deploy/src/main/java/com/netflix/spinnaker/halyard/deploy/spinnaker/v1/service/distributed/kubernetes/v2/KubernetesV2Utils.java:162 | the 32-bit `31 * h + c` loop over any code units equals the documented polynomial reduced modulo 2^32 |
| JavaInt.StringHashPoly | halyard-deploy/src/main/java/com/netflix/spinnaker/halyard/deploy/spinnaker/v1/service/distributed/kubernetes/v2/KubernetesV2Utils.java:162 | `s.hashCode()` is s[0]·31^(n-1) + … + s[n-1] over the UTF-16 code units of s, modulo 2^32, for every string |
| JavaInt.Utf16OfBmp | halyard-deploy/src/main/java/com/netflix/spinnaker/halyard/deploy/spinnaker/v1/service/distributed/kubernetes/v2/KubernetesV2Utils.java:162 | for text of BMP characters the code units are the characters themselves |
| JavaInt.Digits | halyard-deploy/src/main/java/com/netflix/spinnaker/halyard/deploy/spinnaker/v1/service/distributed/kubernetes/v2/KubernetesV2Utils.java:113 | decimal digits: non-empty, all digits, no leading zero |
| JavaInt.DecimalString | halyard-deploy/src/main/java/com/netflix/spinnaker/halyard/deploy/spinnaker/v1/service/distributed/kubernetes/v2/KubernetesV2Utils.java:113 | `Integer.toString`: non-empty, and starts with '-' exactly for negative numbers |
| JavaInt.DigitsRoundTrip | halyard-deploy/src/main/java/com/netflix/spinnaker/halyard/deploy/spinnaker/v1/service/distributed/kubernetes/v2/KubernetesV2Utils.java:113 | reading the digits back gives the number |
| JavaInt.DecimalRoundTrip | halyard-deploy/src/main/java/com/netflix/spinnaker/halyard/deploy/spinnaker/v1/service/distributed/kubernetes/v2/KubernetesV2Utils.java:162 | `Integer.toString` is read back to the same number, so the name suffix determines `Math.abs` of the hash (a hash and its negation share a suffix) |
| JavaInt.MinIntString | halyard-deploy/src/main/java/com/netflix/spinnaker/halyard/deploy/spinnaker/v1/service/distributed/kubernetes/v2/KubernetesV2Utils.java:162 | `Integer.toString(Integer.MIN_VALUE)` is "-2147483648" |
| JavaInt.AbsMinIntString | halyard-deploy/src/main/java/com/netflix/spinnaker/halyard/deploy/spinnaker/v1/service/distributed/kubernetes/v2/KubernetesV2Utils.java:162 | `Math.abs(Integer.MIN_VALUE)` prints as "-2147483648" |
| JavaInt.StringHash | halyard-deploy/src/main/java/com/netflix/spinnaker/halyard/deploy/spinnaker/v1/service/distributed/kubernetes/v2/KubernetesV2Utils.java:162 | `String.hashCode`, computed as the `31 * h + c` loop over the UTF-16 code units; `JavaInt.StringHashPoly` proves it equal to the documented polynomial modulo 2^32, and `JavaInt.KeyHash` and `JavaInt.ValueHash` give two values |
| JavaInt.JavaAbs | halyard-deploy/src/main/java/com/netflix/spinnaker/halyard/deploy/spinnaker/v1/service/distributed/kubernetes/v2/KubernetesV2Utils.java:162 | `Math.abs` on a 32-bit pattern; what it gives is stated by `JavaInt.JavaAbsValue` |
| JavaInt.KeyHash | halyard-deploy/src/main/java/com/netflix/spinnaker/halyard/deploy/spinnaker/v1/service/distributed/kubernetes/v2/KubernetesV2Utils.java:162 | "key".hashCode() is 106079 |
| JavaInt.ValueHash | halyard-deploy/src/main/java/com/netflix/spinnaker/halyard/deploy/spinnaker/v1/service/distributed/kubernetes/v2/KubernetesV2Utils.java:162 | "accdsahv".hashCode() is 0x80019E5F |
| Base64.Encode | halyard-deploy/src/main/java/com/netflix/spinnaker/halyard/deploy/spinnaker/v1/service/distributed/kubernetes/v2/KubernetesV2Utils.java:136-145 | the standard padded encoder of `java.util.Base64.getEncoder().encode`, section 4 of RFC 4648; what it promises is stated by `Base64.RoundTrip`, `Base64.EncodedLength` and `Base64.EncodedAlphabet` |
| Base64.Decode | halyard-deploy/src/main/java/com/netflix/spinnaker/halyard/deploy/spinnaker/v1/service/distributed/kubernetes/v2/KubernetesV2Utils.java:136-145 | the reader of padded base64 that the round trip `Base64.RoundTrip` is stated against |
| Base64.AlphabetChar | halyard-deploy/src/main/java/com/netflix/spinnaker/halyard/deploy/spinnaker/v1/service/distributed/kubernetes/v2/KubernetesV2Utils.java:136-145 | no sextet is encoded as the padding character |
| Base64.AlphabetInverse | halyard-deploy/src/main/java/com/netflix/spinnaker/halyard/deploy/spinnaker/v1/service/distributed/kubernetes/v2/KubernetesV2Utils.java:136-145 | the decoder's alphabet lookup inverts the encoder's |
| Base64.GroupRoundTrip | halyard-deploy/src/main/java/com/netflix/spinnaker/halyard/deploy/spinnaker/v1/service/distributed/kubernetes/v2/KubernetesV2Utils.java:136-145 | three bytes encode to four characters that decode back to the three bytes |
| Base64.TailOneRoundTrip | halyard-deploy/src/main/java/com/netflix/spinnaker/halyard/deploy/spinnaker/v1/service/distributed/kubernetes/v2/KubernetesV2Utils.java:136-145 | a final single byte gives two characters and "==", which decode back to it |
| Base64.TailTwoRoundTrip | halyard-deploy/src/main/java/com/netflix/spinnaker/halyard/deploy/spinnaker/v1/service/distributed/kubernetes/v2/KubernetesV2Utils.java:136-145 | two final bytes give three characters and "=", which decode back to them |
| Base64.DecodeGroupThen | halyard-deploy/src/main/java/com/netflix/spinnaker/halyard/deploy/spinnaker/v1/service/distributed/kubernetes/v2/KubernetesV2Utils.java:136-145 | an unpadded group is decoded before the rest of the text |
| Base64.RoundTrip | halyard-deploy/src/main/java/com/netflix/spinnaker/halyard/deploy/spinnaker/v1/service/distributed/kubernetes/v2/KubernetesV2Utils.java:135-145 | decoding the base64 of any byte string gives back exactly that byte string |
| Base64.EncodedLength | halyard-deploy/src/main/java/com/netflix/spinnaker/halyard/deploy/spinnaker/v1/service/distributed/kubernetes/v2/KubernetesV2Utils.java:135-145 | the base64 of n bytes has 4 * ceil(n/3) characters |
| Base64.EncodedAlphabet | halyard-deploy/src/main/java/com/netflix/spinnaker/halyard/deploy/spinnaker/v1/service/distributed/kubernetes/v2/KubernetesV2Utils.java:136-145 | every output character is in the alphabet, except padding in the last two places |
| JsonEscape.Escape | halyard-deploy/src/main/java/com/netflix/spinnaker/halyard/deploy/spinnaker/v1/service/distributed/kubernetes/v2/KubernetesV2Utils.java:139-151 | `quoteAsString`; what it promises is stated by `JsonEscape.RoundTrip`, `JsonEscape.EscapedHasNoControl`, `JsonEscape.EscapedIsWellFormed` and `JsonEscape.EscapeUnchanged` |
| JsonEscape.Unescape | halyard-deploy/src/main/java/com/netflix/spinnaker/halyard/deploy/spinnaker/v1/service/distributed/kubernetes/v2/KubernetesV2Utils.java:139-151 | the JSON string-body reader that the round trip `JsonEscape.RoundTrip` is stated against |
| JsonEscape.HexDigit | halyard-deploy/src/main/java/com/netflix/spinnaker/halyard/deploy/spinnaker/v1/service/distributed/kubernetes/v2/KubernetesV2Utils.java:139-151 | `\u00XX` escapes use the digits 0-9 and upper-case A-F, and read back to the nibble |
| JsonEscape.UnescapeChar | halyard-deploy/src/main/java/com/netflix/spinnaker/halyard/deploy/spinnaker/v1/service/distributed/kubernetes/v2/KubernetesV2Utils.java:139-151 | each escaped character is read back as that character, in front of what follows |
| JsonEscape.RoundTrip | halyard-deploy/src/main/java/com/netflix/spinnaker/halyard/deploy/spinnaker/v1/service/distributed/kubernetes/v2/KubernetesV2Utils.java:137-152 | unescaping the quoted text gives back exactly the text |
| JsonEscape.EscapedHasNoControl | halyard-deploy/src/main/java/com/netflix/spinnaker/halyard/deploy/spinnaker/v1/service/distributed/kubernetes/v2/KubernetesV2Utils.java:139-151 | the quoted text holds no character below 0x20 |
| JsonEscape.EscapedIsWellFormed | halyard-deploy/src/main/java/com/netflix/spinnaker/halyard/deploy/spinnaker/v1/service/distributed/kubernetes/v2/KubernetesV2Utils.java:139-151 | the quoted text is a well-formed JSON string body: every `"` and `\` in it is part of an escape |
| JsonEscape.EscapeUnchanged | halyard-deploy/src/main/java/com/netflix/spinnaker/halyard/deploy/spinnaker/v1/service/distributed/kubernetes/v2/KubernetesV2Utils.java:139-151 | text without quotes, backslashes or control characters is left as it is |
| JsonEscape.EscapeAppend | halyard-deploy/src/main/java/com/netflix/spinnaker/halyard/deploy/spinnaker/v1/service/distributed/kubernetes/v2/KubernetesV2Utils.java:139-151 | quoting works character by character: it distributes over concatenation |
| JinjaStrip.RemoveAll | halyard-deploy/src/main/java/com/netflix/spinnaker/halyard/deploy/spinnaker/v1/service/distributed/kubernetes/v2/KubernetesV2Utils.java:148 | one `replaceAll` pass for a two-character delimiter; stated by `JinjaStrip.RemoveAllIsSubsequence`, `JinjaStrip.RemoveAllUnchanged` and `JinjaStrip.RemoveAllDelimiter` |
| JinjaStrip.Strip | halyard-deploy/src/main/java/com/netflix/spinnaker/halyard/deploy/spinnaker/v1/service/distributed/kubernetes/v2/KubernetesV2Utils.java:148 | the `{%` pass followed by the `%}` pass; stated by `JinjaStrip.StripIsSubsequence`, `JinjaStrip.StripUnchanged`, `JinjaStrip.StripBlock` and `JinjaStrip.StripNotIdempotent` |
| JinjaStrip.SubsequenceLength | halyard-deploy/src/main/java/com/netflix/spinnaker/halyard/deploy/spinnaker/v1/service/distributed/kubernetes/v2/KubernetesV2Utils.java:148 | a subsequence is no longer than the text it is taken from |
| JinjaStrip.SubsequenceTransitive | halyard-deploy/src/main/java/com/netflix/spinnaker/halyard/deploy/spinnaker/v1/service/distributed/kubernetes/v2/KubernetesV2Utils.java:148 | a subsequence of a subsequence is a subsequence |
| JinjaStrip.RemoveAllIsSubsequence | halyard-deploy/src/main/java/com/netflix/spinnaker/halyard/deploy/spinnaker/v1/service/distributed/kubernetes/v2/KubernetesV2Utils.java:148 | one removal pass only deletes characters |
| JinjaStrip.RemoveAllUnchanged | halyard-deploy/src/main/java/com/netflix/spinnaker/halyard/deploy/spinnaker/v1/service/distributed/kubernetes/v2/KubernetesV2Utils.java:148 | a pass leaves the text unchanged if and only if the delimiter does not occur in it |
| JinjaStrip.RemoveAllAppend | halyard-deploy/src/main/java/com/netflix/spinnaker/halyard/deploy/spinnaker/v1/service/distributed/kubernetes/v2/KubernetesV2Utils.java:148 | a pass works piecewise on text split where no delimiter straddles the cut |
| JinjaStrip.RemoveAllDelimiter | halyard-deploy/src/main/java/com/netflix/spinnaker/halyard/deploy/spinnaker/v1/service/distributed/kubernetes/v2/KubernetesV2Utils.java:148 | a pass deletes a delimiter on its own |
| JinjaStrip.RemoveAllPlain | halyard-deploy/src/main/java/com/netflix/spinnaker/halyard/deploy/spinnaker/v1/service/distributed/kubernetes/v2/KubernetesV2Utils.java:148 | a pass leaves alone text in which the delimiter's first character never occurs |
| JinjaStrip.StripIsSubsequence | halyard-deploy/src/main/java/com/netflix/spinnaker/halyard/deploy/spinnaker/v1/service/distributed/kubernetes/v2/KubernetesV2Utils.java:148 | stripping yields a subsequence of the input, no longer than it |
| JinjaStrip.StripUnchanged | halyard-deploy/src/main/java/com/netflix/spinnaker/halyard/deploy/spinnaker/v1/service/distributed/kubernetes/v2/KubernetesV2Utils.java:148 | text with neither `{%` nor `%}` is left unchanged |
| JinjaStrip.RemoveOpenOfBlock | halyard-deploy/src/main/java/com/netflix/spinnaker/halyard/deploy/spinnaker/v1/service/distributed/kubernetes/v2/KubernetesV2Utils.java:148 | on a statement block around plain text, the first pass removes exactly the two `{%` |
| JinjaStrip.RemoveCloseOfBlock | halyard-deploy/src/main/java/com/netflix/spinnaker/halyard/deploy/spinnaker/v1/service/distributed/kubernetes/v2/KubernetesV2Utils.java:148 | the second pass then removes exactly the two `%}` |
| JinjaStrip.StripBlock | halyard-deploy/src/main/java/com/netflix/spinnaker/halyard/deploy/spinnaker/v1/service/distributed/kubernetes/v2/KubernetesV2Utils.java:148 | a statement block around plain text is stripped down to that text |
| JinjaStrip.StripExample | halyard-deploy/src/main/java/com/netflix/spinnaker/halyard/deploy/spinnaker/v1/service/distributed/kubernetes/v2/KubernetesV2Utils.java:148 | "a{%b%}c" is stripped to "abc" |
| JinjaStrip.StripNotIdempotent | halyard-deploy/src/main/java/com/netflix/spinnaker/halyard/deploy/spinnaker/v1/service/distributed/kubernetes/v2/KubernetesV2Utils.java:148 | "{{%%" strips to "{%", which still holds an opening delimiter and strips to "" |
| ContentHash.EntryHash | halyard-deploy/src/main/java/com/netflix/spinnaker/halyard/deploy/spinnaker/v1/service/distributed/kubernetes/v2/KubernetesV2Utils.java:162 | `Map.Entry.hashCode` for strings, `key.hashCode() ^ value.hashCode()`; stated by `ContentHash.MapHashSingleton` |
| ContentHash.MapHash | halyard-deploy/src/main/java/com/netflix/spinnaker/halyard/deploy/spinnaker/v1/service/distributed/kubernetes/v2/KubernetesV2Utils.java:162 | `AbstractMap.hashCode` as an order-free sum; stated by `ContentHash.MapHashRemove`, and computed by the loop `ContentHash.HashCode` |
| ContentHash.MapHashRemove | halyard-deploy/src/main/java/com/netflix/spinnaker/halyard/deploy/spinnaker/v1/service/distributed/kubernetes/v2/KubernetesV2Utils.java:162 | the map hash is the same whichever entry is added first, so it depends on the map alone and not on iteration order |
| ContentHash.MapHashSingleton | halyard-deploy/src/main/java/com/netflix/spinnaker/halyard/deploy/spinnaker/v1/service/distributed/kubernetes/v2/KubernetesV2Utils.java:162 | a one-entry map hashes to `key.hashCode() ^ value.hashCode()` |
| ContentHash.AddAssociative | halyard-deploy/src/main/java/com/netflix/spinnaker/halyard/deploy/spinnaker/v1/service/distributed/kubernetes/v2/KubernetesV2Utils.java:162 | 32-bit wrap-around addition is associative, so the loop may add entry by entry |
| ContentHash.HashCode | halyard-deploy/src/main/java/com/netflix/spinnaker/halyard/deploy/spinnaker/v1/service/distributed/kubernetes/v2/KubernetesV2Utils.java:162 | the loop over the entries computes the order-free map hash |
| ContentHash.WitnessHash | halyard-deploy/src/main/java/com/netflix/spinnaker/halyard/deploy/spinnaker/v1/service/distributed/kubernetes/v2/KubernetesV2Utils.java:162 | the map {"key": "accdsahv"} hashes to 0x80000000 |
| Kubectl.ResolvedKubeconfig | halyard-deploy/src/main/java/com/netflix/spinnaker/halyard/deploy/spinnaker/v1/service/distributed/kubernetes/v2/KubernetesV2Utils.java:74-79 | the kubeconfig file, decrypted when it is an encrypted secret; used by `Kubectl.PrefixArgs` |
| Kubectl.PrefixArgs | halyard-deploy/src/main/java/com/netflix/spinnaker/halyard/deploy/spinnaker/v1/service/distributed/kubernetes/v2/KubernetesV2Utils.java:60-86 | the list starts with "kubectl"; with a service account it is exactly that; otherwise "--context c" follows when c is non-empty and "--kubeconfig k" closes the list when the resolved k is non-empty |
| Kubectl.ContextBeforeKubeconfig | halyard-deploy/src/main/java/com/netflix/spinnaker/halyard/deploy/spinnaker/v1/service/distributed/kubernetes/v2/KubernetesV2Utils.java:60-86 | with both flags the list is exactly kubectl, --context, c, --kubeconfig, k |
| Kubectl.KubectlPrefix | halyard-deploy/src/main/java/com/netflix/spinnaker/halyard/deploy/spinnaker/v1/service/distributed/kubernetes/v2/KubernetesV2Utils.java:60-86 | appending step by step yields the prefix list above |
| Kubectl.KubectlPodServiceCommand | halyard-deploy/src/main/java/com/netflix/spinnaker/halyard/deploy/spinnaker/v1/service/distributed/kubernetes/v2/KubernetesV2Utils.java:88-102 | prefix, then the namespace argument, then get, po, the cluster label selector and the pod-name query |
| Kubectl.KubectlConnectPodCommand | halyard-deploy/src/main/java/com/netflix/spinnaker/halyard/deploy/spinnaker/v1/service/distributed/kubernetes/v2/KubernetesV2Utils.java:104-116 | prefix, then the namespace argument, then port-forward, the pod name and the port in decimal |
| Kubectl.PodCommandLayout | halyard-deploy/src/main/java/com/netflix/spinnaker/halyard/deploy/spinnaker/v1/service/distributed/kubernetes/v2/KubernetesV2Utils.java:88-102 | the pod command starts with the prefix, has "-n=ns" right after it exactly when a namespace is given, and ends with its four fixed arguments |
| JavaFile.Collapse | halyard-deploy/src/main/java/com/netflix/spinnaker/halyard/deploy/spinnaker/v1/service/distributed/kubernetes/v2/KubernetesV2Utils.java:208 | `java.io.File` path normalisation: the last character is kept and no two separators are left adjacent; with `JavaFile.CollapseSingleSeparators` and `JavaFile.CollapseDoubleSeparator` this determines the result |
| JavaFile.CollapseSingleSeparators | halyard-deploy/src/main/java/com/netflix/spinnaker/halyard/deploy/spinnaker/v1/service/distributed/kubernetes/v2/KubernetesV2Utils.java:208 | a path without repeated separators is left unchanged |
| JavaFile.CollapseSnoc | halyard-deploy/src/main/java/com/netflix/spinnaker/halyard/deploy/spinnaker/v1/service/distributed/kubernetes/v2/KubernetesV2Utils.java:208 | one more character is dropped exactly when it is a separator following a separator |
| JavaFile.CollapseDoubleSeparator | halyard-deploy/src/main/java/com/netflix/spinnaker/halyard/deploy/spinnaker/v1/service/distributed/kubernetes/v2/KubernetesV2Utils.java:208 | a doubled separator anywhere in the path collapses exactly as a single one does |
| JavaFile.CollapseFirst | halyard-deploy/src/main/java/com/netflix/spinnaker/halyard/deploy/spinnaker/v1/service/distributed/kubernetes/v2/KubernetesV2Utils.java:155 | collapsing keeps the first character, so an absolute path stays absolute and a relative one relative |
| JavaFile.Normalize | halyard-deploy/src/main/java/com/netflix/spinnaker/halyard/deploy/spinnaker/v1/service/distributed/kubernetes/v2/KubernetesV2Utils.java:208 | the collapsed path, less a trailing separator unless the path is the root: single separators, no trailing separator after the first character, and non-empty when the path is |
| JavaFile.CollapseAppendName | halyard-deploy/src/main/java/com/netflix/spinnaker/halyard/deploy/spinnaker/v1/service/distributed/kubernetes/v2/KubernetesV2Utils.java:208 | appending a separator-free name commutes with collapsing separators |
| JavaFile.LastSlash | halyard-deploy/src/main/java/com/netflix/spinnaker/halyard/deploy/spinnaker/v1/service/distributed/kubernetes/v2/KubernetesV2Utils.java:208 | the position of the last separator, with none after it |
| JavaFile.FileName | halyard-deploy/src/main/java/com/netflix/spinnaker/halyard/deploy/spinnaker/v1/service/distributed/kubernetes/v2/KubernetesV2Utils.java:208 | `File.getName`: a separator-free suffix of the normalised path, preceded by a separator when shorter than it, and empty exactly for the empty path and the root |
| JavaFile.NameAfterSeparator | halyard-deploy/src/main/java/com/netflix/spinnaker/halyard/deploy/spinnaker/v1/service/distributed/kubernetes/v2/KubernetesV2Utils.java:208 | the name of a path ending in a separator and a separator-free name is that name |
| JavaFile.FileNameIn | halyard-deploy/src/main/java/com/netflix/spinnaker/halyard/deploy/spinnaker/v1/service/distributed/kubernetes/v2/KubernetesV2Utils.java:208 | the name of a file in a directory is the part after the separator |
| JavaFile.FileNameTrailingSeparator | halyard-deploy/src/main/java/com/netflix/spinnaker/halyard/deploy/spinnaker/v1/service/distributed/kubernetes/v2/KubernetesV2Utils.java:208 | a trailing separator does not change the name: "dir/name/" has the name "name" |
| JavaFile.FileNameOfName | halyard-deploy/src/main/java/com/netflix/spinnaker/halyard/deploy/spinnaker/v1/service/distributed/kubernetes/v2/KubernetesV2Utils.java:208 | a bare name, with or without a trailing separator, is its own name |
| JavaFile.AbsolutePath | halyard-deploy/src/main/java/com/netflix/spinnaker/halyard/deploy/spinnaker/v1/service/distributed/kubernetes/v2/KubernetesV2Utils.java:155 | `File.getAbsolutePath` on Unix; stated by `JavaFile.AbsolutePathResolves` and `JavaFile.NormalizeAbsolute` |
| JavaFile.AbsolutePathResolves | halyard-deploy/src/main/java/com/netflix/spinnaker/halyard/deploy/spinnaker/v1/service/distributed/kubernetes/v2/KubernetesV2Utils.java:155 | the empty path gives the working directory; an absolute path gives its normalised form whatever the working directory; a relative path gives the working directory, a separator unless that directory is the root, and the normalised path; with an absolute working directory the result is absolute |
| JavaFile.NormalizeAbsolute | halyard-deploy/src/main/java/com/netflix/spinnaker/halyard/deploy/spinnaker/v1/service/distributed/kubernetes/v2/KubernetesV2Utils.java:155 | an absolute path "/dir/name" is already normal, and it is its own absolute path |
| ConfigSpecs.PairFromFiles | halyard-deploy/src/main/java/com/netflix/spinnaker/halyard/deploy/spinnaker/v1/service/distributed/kubernetes/v2/KubernetesV2Utils.java:206-209 | content from the input file, name from the output file, no inline text |
| ConfigSpecs.PairFromFile | halyard-deploy/src/main/java/com/netflix/spinnaker/halyard/deploy/spinnaker/v1/service/distributed/kubernetes/v2/KubernetesV2Utils.java:202-204 | content from the file, stored under the file's own name |
| ConfigSpecs.PairFromString | halyard-deploy/src/main/java/com/netflix/spinnaker/halyard/deploy/spinnaker/v1/service/distributed/kubernetes/v2/KubernetesV2Utils.java:211-214 | inline text under the given name, no file |
| ConfigSpecs.ReadFailureMessage | halyard-deploy/src/main/java/com/netflix/spinnaker/halyard/deploy/spinnaker/v1/service/distributed/kubernetes/v2/KubernetesV2Utils.java:155 | the message starts with "Failed to read required config file: " followed by the absolute path |
| ConfigSpecs.PairContent | halyard-deploy/src/main/java/com/netflix/spinnaker/halyard/deploy/spinnaker/v1/service/distributed/kubernetes/v2/KubernetesV2Utils.java:133-157 | one pair's stored value, or the read error; stated by `ConfigSpecs.PairContentFaithful` and `ConfigSpecs.ReadFailureMessage` |
| ConfigSpecs.PairContentFaithful | halyard-deploy/src/main/java/com/netflix/spinnaker/halyard/deploy/spinnaker/v1/service/distributed/kubernetes/v2/KubernetesV2Utils.java:133-157 | Secret values base64-decode to the source bytes; ConfigMap values unescape to the inline text, or to the file text with delimiters stripped; an unreadable file is a fatal error naming its absolute path; a pair with neither text nor file is a null-pointer failure |
| ConfigSpecs.ContentMap | halyard-deploy/src/main/java/com/netflix/spinnaker/halyard/deploy/spinnaker/v1/service/distributed/kubernetes/v2/KubernetesV2Utils.java:131-160 | the map after putting the pairs in list order, or the first failure; stated by `ConfigSpecs.ContentMapKeys`, `ConfigSpecs.ContentMapLastWins`, `ConfigSpecs.ContentMapFailure`, `ConfigSpecs.ContentMapFirstFailure` and `ConfigSpecs.ContentMapPermutation` |
| ConfigSpecs.NamesSnoc | halyard-deploy/src/main/java/com/netflix/spinnaker/halyard/deploy/spinnaker/v1/service/distributed/kubernetes/v2/KubernetesV2Utils.java:132-159 | the names of a list are those of its front plus the last pair's |
| ConfigSpecs.ContentMapKeys | halyard-deploy/src/main/java/com/netflix/spinnaker/halyard/deploy/spinnaker/v1/service/distributed/kubernetes/v2/KubernetesV2Utils.java:131-160 | the keys of the content map are exactly the pair names |
| ConfigSpecs.ContentMapLastWins | halyard-deploy/src/main/java/com/netflix/spinnaker/halyard/deploy/spinnaker/v1/service/distributed/kubernetes/v2/KubernetesV2Utils.java:159 | each name holds the content of the last pair carrying it |
| ConfigSpecs.ContentMapFailure | halyard-deploy/src/main/java/com/netflix/spinnaker/halyard/deploy/spinnaker/v1/service/distributed/kubernetes/v2/KubernetesV2Utils.java:132-157 | building fails if and only if some pair fails |
| ConfigSpecs.ContentMapFirstFailure | halyard-deploy/src/main/java/com/netflix/spinnaker/halyard/deploy/spinnaker/v1/service/distributed/kubernetes/v2/KubernetesV2Utils.java:132-157 | a failed build fails with the error of a pair all of whose predecessors succeed, the first failure in list order |
| ConfigSpecs.ContentMapFailurePersists | halyard-deploy/src/main/java/com/netflix/spinnaker/halyard/deploy/spinnaker/v1/service/distributed/kubernetes/v2/KubernetesV2Utils.java:132-157 | once a prefix of the list fails, the whole list fails with that error |
| ConfigSpecs.UnreadableFileFails | halyard-deploy/src/main/java/com/netflix/spinnaker/halyard/deploy/spinnaker/v1/service/distributed/kubernetes/v2/KubernetesV2Utils.java:143-155 | an unreadable file after readable pairs fails the build with the fatal read error for its absolute path |
| ConfigSpecs.OnceInDistinct | halyard-deploy/src/main/java/com/netflix/spinnaker/halyard/deploy/spinnaker/v1/service/distributed/kubernetes/v2/KubernetesV2Utils.java:132-159 | in a list with distinct names, every pair occurs once |
| ConfigSpecs.TwiceInSeq | halyard-deploy/src/main/java/com/netflix/spinnaker/halyard/deploy/spinnaker/v1/service/distributed/kubernetes/v2/KubernetesV2Utils.java:132-159 | a pair found at two positions occurs at least twice |
| ConfigSpecs.PermutationKeepsDistinct | halyard-deploy/src/main/java/com/netflix/spinnaker/halyard/deploy/spinnaker/v1/service/distributed/kubernetes/v2/KubernetesV2Utils.java:132-159 | a permutation of a list with distinct names has distinct names |
| ConfigSpecs.PermutationBuilds | halyard-deploy/src/main/java/com/netflix/spinnaker/halyard/deploy/spinnaker/v1/service/distributed/kubernetes/v2/KubernetesV2Utils.java:132-160 | a permutation of a list that builds also builds |
| ConfigSpecs.PermutationEntry | halyard-deploy/src/main/java/com/netflix/spinnaker/halyard/deploy/spinnaker/v1/service/distributed/kubernetes/v2/KubernetesV2Utils.java:132-160 | under permutation of distinct names, each name maps to the same content |
| ConfigSpecs.PermutationNames | halyard-deploy/src/main/java/com/netflix/spinnaker/halyard/deploy/spinnaker/v1/service/distributed/kubernetes/v2/KubernetesV2Utils.java:132-159 | a permutation has the same names |
| ConfigSpecs.ContentMapPermutation | halyard-deploy/src/main/java/com/netflix/spinnaker/halyard/deploy/spinnaker/v1/service/distributed/kubernetes/v2/KubernetesV2Utils.java:131-160 | permuting pairs with distinct names gives the same content map |
| ConfigSpecs.SameMap | halyard-deploy/src/main/java/com/netflix/spinnaker/halyard/deploy/spinnaker/v1/service/distributed/kubernetes/v2/KubernetesV2Utils.java:131-160 | two maps with the same keys and the same values are equal |
| ConfigSpecs.ArtifactName | halyard-deploy/src/main/java/com/netflix/spinnaker/halyard/deploy/spinnaker/v1/service/distributed/kubernetes/v2/KubernetesV2Utils.java:162 | `name + "-" + Math.abs(contentMap.hashCode())`; stated by `ConfigSpecs.ArtifactNameSuffix`, `ConfigSpecs.NegativeSuffixWitness` and `ConfigSpecs.ArtifactNamePermutation` |
| ConfigSpecs.ArtifactNameSuffix | halyard-deploy/src/main/java/com/netflix/spinnaker/halyard/deploy/spinnaker/v1/service/distributed/kubernetes/v2/KubernetesV2Utils.java:162 | the suffix is the decimal absolute value of the signed map hash, and it starts with '-' exactly when the hash is -2^31 |
| ConfigSpecs.MinHashName | halyard-deploy/src/main/java/com/netflix/spinnaker/halyard/deploy/spinnaker/v1/service/distributed/kubernetes/v2/KubernetesV2Utils.java:162 | a map hashing to -2^31 gives the name the suffix "--2147483648" |
| ConfigSpecs.NegativeSuffixWitness | halyard-deploy/src/main/java/com/netflix/spinnaker/halyard/deploy/spinnaker/v1/service/distributed/kubernetes/v2/KubernetesV2Utils.java:162 | a concrete content map whose artifact name is "app--2147483648" |
| ConfigSpecs.ArtifactNamePermutation | halyard-deploy/src/main/java/com/netflix/spinnaker/halyard/deploy/spinnaker/v1/service/distributed/kubernetes/v2/KubernetesV2Utils.java:131-162 | permuting pairs with distinct names leaves the artifact name unchanged |
| ConfigSpecs.EscapedBlock | halyard-deploy/src/main/java/com/netflix/spinnaker/halyard/deploy/spinnaker/v1/service/distributed/kubernetes/v2/KubernetesV2Utils.java:147-152 | a ConfigMap file holding a statement block around plain text that needs no escaping is stored as that text |
| ConfigSpecs.ScenarioText | halyard-deploy/src/main/java/com/netflix/spinnaker/halyard/deploy/spinnaker/v1/service/distributed/kubernetes/v2/KubernetesV2Utils.java:147-152 | "{% if x %}shell{% endif %}" is stored as " if x shell endif " |
| ConfigSpecs.ScenarioFileName | halyard-deploy/src/main/java/com/netflix/spinnaker/halyard/deploy/spinnaker/v1/service/distributed/kubernetes/v2/KubernetesV2Utils.java:202-208 | the file /cfg/run.sh is stored under the name "run.sh" |
| ConfigSpecs.ScenarioFile | halyard-deploy/src/main/java/com/netflix/spinnaker/halyard/deploy/spinnaker/v1/service/distributed/kubernetes/v2/KubernetesV2Utils.java:143-152 | the file /cfg/run.sh holding that template text is stored as " if x shell endif " |
| ConfigSpecs.ContentMapOfTwo | halyard-deploy/src/main/java/com/netflix/spinnaker/halyard/deploy/spinnaker/v1/service/distributed/kubernetes/v2/KubernetesV2Utils.java:131-160 | two readable pairs give the map with the first entry put, then the second |
| ConfigSpecs.ScenarioInline | halyard-deploy/src/main/java/com/netflix/spinnaker/halyard/deploy/spinnaker/v1/service/distributed/kubernetes/v2/KubernetesV2Utils.java:137-140 | the inline text "hello" is stored unchanged |
| ConfigSpecs.ConfigMapScenario | halyard-deploy/src/main/java/com/netflix/spinnaker/halyard/deploy/spinnaker/v1/service/distributed/kubernetes/v2/KubernetesV2Utils.java:131-160 | inline "hello" under "greeting" plus that file give exactly the map {greeting: hello, run.sh: " if x shell endif "} |
| ConfigSpecs.TemplatedResource.constructor | halyard-deploy/src/main/java/com/netflix/spinnaker/halyard/deploy/spinnaker/v1/service/distributed/kubernetes/v2/KubernetesV2Utils.java:120 | a template resource for a path, with no bindings yet |
| ConfigSpecs.TemplatedResource.ExtendBindings | halyard-deploy/src/main/java/com/netflix/spinnaker/halyard/deploy/spinnaker/v1/service/distributed/kubernetes/v2/KubernetesV2Utils.java:170 | the new bindings are added, replacing earlier ones with the same name |
| ConfigSpecs.ConfigSpec.constructor | halyard-deploy/src/main/java/com/netflix/spinnaker/halyard/deploy/spinnaker/v1/service/distributed/kubernetes/v2/KubernetesV2Utils.java:119-120 | a spec of the given kind holding the resource, with no name yet |
| ConfigSpecs.SpecBindings | halyard-deploy/src/main/java/com/netflix/spinnaker/halyard/deploy/spinnaker/v1/service/distributed/kubernetes/v2/KubernetesV2Utils.java:164-168 | exactly the four bindings files, name, namespace and clusterName, holding the content map and the given strings |
| ConfigSpecs.CreateConfigSpec | halyard-deploy/src/main/java/com/netflix/spinnaker/halyard/deploy/spinnaker/v1/service/distributed/kubernetes/v2/KubernetesV2Utils.java:130-173 | on failure, returns the content map's error and sets no name or binding; otherwise returns the spec named after the map's hash, with the four bindings added and `name` equal to `spec.name` |
| ConfigSpecs.CreateSecretSpec | halyard-deploy/src/main/java/com/netflix/spinnaker/halyard/deploy/spinnaker/v1/service/distributed/kubernetes/v2/KubernetesV2Utils.java:118-122 | a fresh Secret spec from the secret template, built in base64 mode; on failure, the error and no spec |
| ConfigSpecs.CreateConfigMapSpec | halyard-deploy/src/main/java/com/netflix/spinnaker/halyard/deploy/spinnaker/v1/service/distributed/kubernetes/v2/KubernetesV2Utils.java:124-128 | a fresh ConfigMap spec from the config-map template, built in escape mode; on failure, the error and no spec |

## Left out

- File reading, the platform default charset and the working directory are parameters of `ConfigSpecs.Platform`:
  - `readFile` gives a file's bytes or an `IOException` message.
  - `encodeText` is `String.getBytes()`.
  - `decodeText` is `IOUtils.toString`.
- Recognising and decrypting encrypted secrets (`EncryptedSecret.isEncryptedSecret`, `SecretSessionManager.decryptAsFile`) are function parameters of `Kubectl.SecretResolver`. Their behaviour is not part of this model.
- `account.usesServiceAccount()` is taken as a field of the account.
- `TemplatedResource` and `JinjaJarResource` are not part of this model. A new resource is taken to start with no bindings, and `extendBindings` to add its argument as `putAll` does. Rendering the template is left out.
- `prettify` and `parseManifest` (lines 175-183) are thin wrappers over a YAML library and a JSON mapper, and are left out.
- `java.io.File` is modelled as on Unix, with '/' as the only separator: `JavaFile.Normalize` collapses repeated separators and drops a trailing one. Windows drive letters, backslashes and UNC paths are not modelled.
- `ConfigSpecs.PairFromFiles` and `ConfigSpecs.PairFromFile`: a `null` `File` cannot be passed. In Java a `null` output file (or the one-argument constructor with `null`) throws `NullPointerException` at `outputFile.getName()` (line 208), and a `null` input file builds a pair whose read later fails with `NullPointerException`. That later failure is still modelled: a `ConfigPair` value with neither file nor text makes `ConfigSpecs.PairContent` fail with `NullPointer`.
- `ConfigSpecs.PairFromString`: a `null` name or a `null` text cannot be passed. Names are strings, where Java would put a `null` key into the map. A pair with neither text nor file is still a `ConfigPair` value, and `ConfigSpecs.PairContent` fails on it with `NullPointer`.
- `ConfigSpecs.CreateConfigSpec`: the artifact `name`, `namespace` and `clusterName` are non-null strings. A `null` name, which Java would turn into the prefix "null-", and `null` bindings are not modelled.
- `Kubectl.KubectlPodServiceCommand`: a `null` service, which Java would print as "-l=cluster=null", is not modelled.
- `Kubectl.KubectlConnectPodCommand`: a `null` pod name, which Java would add to the list as a `null` element, is not modelled.
- The base64 text is turned back into a `String` with `new String(byte[])` in the platform charset. The model takes that charset to be ASCII-compatible, so the string is the base64 characters themselves.
- `ContentHash.HashCode`: the order in which `HashMap` visits its entries is left unspecified. The loop picks any remaining entry, so the result is proved for every visiting order.
- `JsonEscape.Unescape` rejects `\u` escapes of surrogate code units. The quoting never produces them, because Dafny characters are Unicode scalar values and control characters are all below 0x20.
- The quoting is stated on Dafny characters. A character outside the Basic Multilingual Plane is one character here and two UTF-16 units in Java. Neither is escaped, so the stored text is the same.
- The four halyard-cli command classes that sit next to this file only register subcommands and call the daemon. They are not part of this model.

Two properties one might expect do not hold for the code, and the model follows the code:

- Stripping is not idempotent. It is two single left-to-right passes, so deleting an inner `{%` can join a new one (`JinjaStrip.StripNotIdempotent`).
- The name suffix is not always non-negative. `Math.abs` of the hash -2^31 is still negative, which gives the name `app--2147483648` for a concrete one-entry map (`ConfigSpecs.NegativeSuffixWitness`).

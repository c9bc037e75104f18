/**
 * The `kubectl` argument lists built from a Kubernetes account.
 *
 * An account either authenticates through the pod's service account (no
 * flags) or names an optional context and an optional kubeconfig file. A
 * kubeconfig that is an encrypted-secret reference is first decrypted to
 * a local file by the secret session manager; recognising and decrypting
 * such references happens outside this model, through `SecretResolver`.
 * Java `null` strings are `None`.
 */
module Kubectl {
  import opened Wrappers
  import JavaInt

  datatype KubernetesAccount = KubernetesAccount(
    usesServiceAccount: bool,
    context: Option<string>,
    kubeconfigFile: Option<string>)

  /** `EncryptedSecret.isEncryptedSecret` and `SecretSessionManager.decryptAsFile`. */
  datatype SecretResolver = SecretResolver(
    isEncryptedSecret: Option<string> -> bool,
    decryptAsFile: Option<string> -> Option<string>)

  /** Neither null nor empty, as `StringUtils.isNotEmpty` and `s != null && !s.isEmpty()` test. */
  predicate NotEmpty(s: Option<string>)
  {
    s.Some? && s.value != ""
  }

  /** The kubeconfig path the command uses: decrypted when it is a secret reference. */
  function ResolvedKubeconfig(account: KubernetesAccount, secrets: SecretResolver): Option<string>
  {
    if secrets.isEncryptedSecret(account.kubeconfigFile) then secrets.decryptAsFile(account.kubeconfigFile)
    else account.kubeconfigFile
  }

  /** A flag followed by its value when the value is present, and nothing otherwise. */
  function OptionalFlag(flag: string, value: Option<string>): seq<string>
  {
    if NotEmpty(value) then [flag, value.value] else []
  }

  /** The argument list `kubectlPrefix` returns. */
  function PrefixArgs(account: KubernetesAccount, secrets: SecretResolver): (r: seq<string>)
    ensures |r| >= 1 && r[0] == "kubectl"
    ensures account.usesServiceAccount ==> r == ["kubectl"]
    ensures !account.usesServiceAccount ==>
      |r| == 1 + (if NotEmpty(account.context) then 2 else 0)
               + (if NotEmpty(ResolvedKubeconfig(account, secrets)) then 2 else 0)
    ensures !account.usesServiceAccount && NotEmpty(account.context) ==>
      r[1] == "--context" && r[2] == account.context.value
    ensures !account.usesServiceAccount && NotEmpty(ResolvedKubeconfig(account, secrets)) ==>
      r[|r| - 2] == "--kubeconfig" && r[|r| - 1] == ResolvedKubeconfig(account, secrets).value
  {
    if account.usesServiceAccount then ["kubectl"]
    else
      ["kubectl"] + OptionalFlag("--context", account.context)
        + OptionalFlag("--kubeconfig", ResolvedKubeconfig(account, secrets))
  }

  /** When both flags are given, the context comes first and the kubeconfig last. */
  lemma ContextBeforeKubeconfig(account: KubernetesAccount, secrets: SecretResolver)
    requires !account.usesServiceAccount
    requires NotEmpty(account.context) && NotEmpty(ResolvedKubeconfig(account, secrets))
    ensures PrefixArgs(account, secrets) ==
      ["kubectl", "--context", account.context.value, "--kubeconfig", ResolvedKubeconfig(account, secrets).value]
  {
  }

  /** `kubectlPrefix`: start with "kubectl" and append the account's flags one after another. */
  method KubectlPrefix(account: KubernetesAccount, secrets: SecretResolver) returns (command: seq<string>)
    ensures command == PrefixArgs(account, secrets)
  {
    command := ["kubectl"];
    if account.usesServiceAccount {
      return;
    }
    var context := account.context;
    if context.Some? && context.value != "" {
      command := command + ["--context"];
      command := command + [context.value];
    }
    var kubeconfig;
    if secrets.isEncryptedSecret(account.kubeconfigFile) {
      kubeconfig := secrets.decryptAsFile(account.kubeconfigFile);
    } else {
      kubeconfig := account.kubeconfigFile;
    }
    if kubeconfig.Some? && kubeconfig.value != "" {
      command := command + ["--kubeconfig"];
      command := command + [kubeconfig.value];
    }
  }

  /** "-n=<namespace>" when a namespace is given. */
  function NamespaceArg(namespace: Option<string>): seq<string>
  {
    if NotEmpty(namespace) then ["-n=" + namespace.value] else []
  }

  const PodNameQuery: string := "-o=jsonpath='{.items[0].metadata.name}'"

  /** `kubectlPodServiceCommand`: the command that prints the name of the first pod of a service. */
  method KubectlPodServiceCommand(account: KubernetesAccount, secrets: SecretResolver, namespace: Option<string>, service: string)
    returns (command: seq<string>)
    ensures command == PrefixArgs(account, secrets) + NamespaceArg(namespace)
      + ["get", "po", "-l=cluster=" + service, PodNameQuery]
  {
    command := KubectlPrefix(account, secrets);
    if namespace.Some? && namespace.value != "" {
      command := command + ["-n=" + namespace.value];
    }
    command := command + ["get"];
    command := command + ["po"];
    command := command + ["-l=cluster=" + service];
    command := command + [PodNameQuery];
  }

  /** `kubectlConnectPodCommand`: the command that forwards a local port to a pod. */
  method KubectlConnectPodCommand(account: KubernetesAccount, secrets: SecretResolver, namespace: Option<string>, name: string, port: JavaInt.Int32)
    returns (command: seq<string>)
    ensures command == PrefixArgs(account, secrets) + NamespaceArg(namespace)
      + ["port-forward", name, JavaInt.DecimalString(port)]
  {
    command := KubectlPrefix(account, secrets);
    if namespace.Some? && namespace.value != "" {
      command := command + ["-n=" + namespace.value];
    }
    command := command + ["port-forward"];
    command := command + [name];
    command := command + [JavaInt.DecimalString(port)];
  }

  /**
   * Both pod commands start with the account prefix, carry the namespace
   * argument right after it, and end with their fixed arguments.
   */
  lemma PodCommandLayout(account: KubernetesAccount, secrets: SecretResolver, namespace: Option<string>, service: string)
    ensures var p := PrefixArgs(account, secrets);
      var c := p + NamespaceArg(namespace) + ["get", "po", "-l=cluster=" + service, PodNameQuery];
      c[..|p|] == p &&
      (NotEmpty(namespace) <==> |c| == |p| + 5) &&
      (NotEmpty(namespace) ==> c[|p|] == "-n=" + namespace.value) &&
      c[|c| - 4..] == ["get", "po", "-l=cluster=" + service, PodNameQuery]
  {
    var p := PrefixArgs(account, secrets);
    var c := p + NamespaceArg(namespace) + ["get", "po", "-l=cluster=" + service, PodNameQuery];
    assert c[..|p|] == p;
  }
}

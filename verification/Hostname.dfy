/** Reading workload names, namespaces and types out of host names. */
module Hostname {
  const SVC := "svc"
  const POD := "pod"

  datatype Parsed = Parsed(name: string, namespace: string, kind: string)

  const UNKNOWN := Parsed("", "", "")

  function Split(s: string): (parts: seq<string>)
    ensures parts != []
  {
    if s == "" then [""]
    else if s[0] == '.' then [""] + Split(s[1..])
    else var rest := Split(s[1..]); [[s[0]] + rest[0]] + rest[1..]
  }

  function Join(parts: seq<string>): string
    requires parts != []
  {
    if |parts| == 1 then parts[0] else parts[0] + "." + Join(parts[1..])
  }

  predicate DotFree(text: string) {
    '.' !in text
  }

  predicate IsKind(text: string) {
    text == SVC || text == POD
  }

  /** ExtractNameAndNamespaceAndType. */
  function Parse(host: string): Parsed {
    var parts := Split(host);
    match |parts|
    case 1 => Parsed(parts[0], "", "")
    case 2 => Parsed(parts[0], parts[1], "")
    case 3 => if IsKind(parts[2]) then Parsed(parts[0], parts[1], parts[2]) else UNKNOWN
    case 5 =>
      if IsKind(parts[2]) && parts[3] == "cluster" && parts[4] == "local"
      then Parsed(parts[0], parts[1], parts[2]) else UNKNOWN
    case 6 =>
      if IsKind(parts[2]) && parts[3] == "cluster" && parts[4] == "local" && parts[5] == ""
      then Parsed(parts[0], parts[1], parts[2]) else UNKNOWN
    case _ => UNKNOWN
  }

  /** The ways a workload is written as a host name. */
  datatype Form = Bare | Namespaced | Typed | Qualified | Absolute

  function Labels(form: Form, p: Parsed): seq<string> {
    match form
    case Bare => [p.name]
    case Namespaced => [p.name, p.namespace]
    case Typed => [p.name, p.namespace, p.kind]
    case Qualified => [p.name, p.namespace, p.kind, "cluster", "local"]
    case Absolute => [p.name, p.namespace, p.kind, "cluster", "local", ""]
  }

  function Print(form: Form, p: Parsed): string {
    Join(Labels(form, p))
  }

  lemma {:induction false} SplitDotFree(text: string)
    requires DotFree(text)
    ensures Split(text) == [text]
  {
    if text != "" {
      SplitDotFree(text[1..]);
      assert [text[0]] + text[1..] == text;
    }
  }

  lemma {:induction false} SplitAtDot(text: string, rest: string)
    requires DotFree(text)
    ensures Split(text + "." + rest) == [text] + Split(rest)
    decreases |text|
  {
    var whole := text + "." + rest;
    if text == "" {
      assert whole[1..] == rest;
    } else {
      assert whole[1..] == text[1..] + "." + rest;
      SplitAtDot(text[1..], rest);
      assert [text[0]] + text[1..] == text;
    }
  }

  lemma {:induction false} SplitJoin(parts: seq<string>)
    requires parts != [] && forall p :: p in parts ==> DotFree(p)
    ensures Split(Join(parts)) == parts
  {
    if |parts| == 1 {
      SplitDotFree(parts[0]);
    } else {
      SplitAtDot(parts[0], Join(parts[1..]));
      SplitJoin(parts[1..]);
    }
  }

  lemma {:induction false} JoinSplit(s: string)
    ensures Join(Split(s)) == s
    ensures forall p :: p in Split(s) ==> DotFree(p)
  {
    if s != "" {
      JoinSplit(s[1..]);
      var rest := Split(s[1..]);
      if s[0] == '.' {
        assert Split(s)[1..] == rest;
      } else if |rest| > 1 {
        assert Split(s)[1..] == rest[1..];
      }
      assert [s[0]] + s[1..] == s;
      forall p | p in Split(s) ensures DotFree(p) {
        if p !in rest && s[0] != '.' {
          assert p == [s[0]] + rest[0] && DotFree(rest[0]);
        }
      }
    }
  }

  /** What a form can carry: a bare name has no namespace, an untyped one no type. */
  predicate Carries(form: Form, p: Parsed) {
    && (form.Bare? ==> p.namespace == "")
    && (if form.Bare? || form.Namespaced? then p.kind == "" else IsKind(p.kind))
  }

  /** Parsing inverts printing for labels without dots. */
  lemma ParseInvertsPrint(form: Form, p: Parsed)
    requires DotFree(p.name) && DotFree(p.namespace) && Carries(form, p)
    ensures Parse(Print(form, p)) == p
  {
    SplitJoin(Labels(form, p));
  }

  /** Every result other than UNKNOWN is printed back to the very host. In
      particular a type is reported only for a host that spells it out. */
  lemma ParsedIsAPrint(host: string)
    requires Parse(host) != UNKNOWN
    ensures var p := Parse(host);
      && DotFree(p.name) && DotFree(p.namespace)
      && exists form :: Carries(form, p) && host == Print(form, p)
  {
    JoinSplit(host);
    var parts, p := Split(host), Parse(host);
    var form :=
      match |parts| case 1 => Bare case 2 => Namespaced case 3 => Typed case 5 => Qualified case _ => Absolute;
    assert Labels(form, p) == parts;
    assert Carries(form, p) && host == Print(form, p);
  }
}

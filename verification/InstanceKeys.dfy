/** Instances of a service and the text keys that tell them apart. */
module InstanceKeys {
  datatype Instance = Instance(ip: string, port: nat, cluster: string, ephemeral: bool)

  function Digit(n: nat): char
    requires n < 10
  {
    ('0' as int + n) as char
  }

  function Decimal(n: nat): string {
    if n < 10 then [Digit(n)] else Decimal(n / 10) + [Digit(n % 10)]
  }

  function Number(s: string): int {
    if s == "" then 0 else 10 * Number(s[..|s| - 1]) + (s[|s| - 1] as int - '0' as int)
  }

  lemma {:induction false} DecimalBack(n: nat)
    ensures Number(Decimal(n)) == n && '\0' !in Decimal(n)
  {
    if n < 10 {
      assert [Digit(n)][..0] == "";
    } else {
      DecimalBack(n / 10);
      var s := Decimal(n);
      assert s[..|s| - 1] == Decimal(n / 10);
    }
  }

  function Bool(b: bool): string { if b then "true" else "false" }

  /** The four parts, separated by NUL characters. */
  function Key(i: Instance): string {
    i.ip + ['\0'] + (Decimal(i.port) + ['\0'] + (i.cluster + ['\0'] + Bool(i.ephemeral)))
  }

  /** A text up to its first NUL determines what stands before and after it. */
  lemma SplitFirst(a: string, b: string, c: string, d: string)
    requires '\0' !in a && '\0' !in c && a + ['\0'] + b == c + ['\0'] + d
    ensures a == c && b == d
  {
    var s := a + ['\0'] + b;
    assert s[|a|] == '\0' && s[|c|] == '\0';
    assert forall i :: 0 <= i < |a| ==> s[i] == a[i];
    assert forall i :: 0 <= i < |c| ==> s[i] == c[i];
    assert |a| == |c|;
    assert a == s[..|a|] && c == s[..|c|];
    assert b == s[|a| + 1..] && d == s[|c| + 1..];
  }

  /** The same from the end. */
  lemma SplitLast(a: string, b: string, c: string, d: string)
    requires '\0' !in b && '\0' !in d && a + ['\0'] + b == c + ['\0'] + d
    ensures a == c && b == d
  {
    var s := a + ['\0'] + b;
    assert s[|a|] == '\0' && s[|c|] == '\0';
    assert forall i :: |a| < i < |s| ==> s[i] == b[i - |a| - 1];
    assert forall i :: |c| < i < |s| ==> s[i] == d[i - |c| - 1];
    assert |a| == |c|;
    assert a == s[..|a|] && c == s[..|c|];
    assert b == s[|a| + 1..] && d == s[|c| + 1..];
  }

  /** Keys tell instances apart as long as addresses hold no NUL; cluster names may. */
  lemma KeysDiffer(a: Instance, b: Instance)
    requires '\0' !in a.ip && '\0' !in b.ip && Key(a) == Key(b)
    ensures a == b
  {
    hide Decimal, Bool;
    var x, y := a.cluster + ['\0'] + Bool(a.ephemeral), b.cluster + ['\0'] + Bool(b.ephemeral);
    SplitFirst(a.ip, Decimal(a.port) + ['\0'] + x, b.ip, Decimal(b.port) + ['\0'] + y);
    DecimalBack(a.port);
    DecimalBack(b.port);
    SplitFirst(Decimal(a.port), x, Decimal(b.port), y);
    BoolBack(a.ephemeral);
    BoolBack(b.ephemeral);
    SplitLast(a.cluster, Bool(a.ephemeral), b.cluster, Bool(b.ephemeral));
  }

  lemma BoolBack(b: bool)
    ensures '\0' !in Bool(b) && (b <==> Bool(b)[0] == 't')
  {
  }

  /** With a NUL in an address two different instances can share a key. */
  lemma KeysCollide()
    ensures var a, b := Instance("x", 1, ['2', '\0', 'y'], true), Instance(['x', '\0', '1'], 2, "y", true);
            a != b && Key(a) == Key(b)
  {
    assert Decimal(1) == "1" && Decimal(2) == "2";
  }
}

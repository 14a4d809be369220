/** The texts of archive keys and of the plugin map's keys: colon-separated parts that hold no colon. */
module ArchiveKeys {
  import opened Aggregation

  /** What stands before the first colon. */
  function Before(s: string): string {
    if s == "" || s[0] == ':' then "" else [s[0]] + Before(s[1..])
  }

  /** What stands after the first colon. */
  function Behind(s: string): string {
    if s == "" then "" else if s[0] == ':' then s[1..] else Behind(s[1..])
  }

  lemma {:induction false} FirstPart(a: string, b: string)
    requires ':' !in a
    ensures Before(a + ":" + b) == a && Behind(a + ":" + b) == b && Before(a) == a
  {
    var s := a + ":" + b;
    if a == "" {
      assert s[1..] == b;
    } else {
      assert s[1..] == a[1..] + ":" + b;
      FirstPart(a[1..], b);
      assert a == [a[0]] + a[1..];
    }
  }

  function PairText(p: Pair): string { p.kind + ":" + p.plugin }

  /** The first two parts of the split at colons. */
  function SplitPair(s: string): Pair { Pair(Before(s), Before(Behind(s))) }

  function TotalText(k: TotalKey): string {
    "total:" +
    match k
    case PerPlugin(p) => PairText(p)
    case Versioned(p, version) => p.kind + ":" + (p.plugin + ":" + version)
  }

  predicate Plain(k: TotalKey) {
    ':' !in k.pair.kind && ':' !in k.pair.plugin && (k.Versioned? ==> ':' !in k.version)
  }

  /** The key of the plugin map gives its pair back. */
  lemma PairBack(p: Pair)
    requires ':' !in p.kind && ':' !in p.plugin
    ensures SplitPair(PairText(p)) == p
  {
    hide Before, Behind;
    FirstPart(p.kind, p.plugin);
    FirstPart(p.plugin, "");
  }

  /** Two running totals never share a key: not two plugins, not two versions, not a plugin and one of its versions. */
  lemma TotalsHaveTheirOwnKeys(k: TotalKey, l: TotalKey)
    requires Plain(k) && Plain(l) && TotalText(k) == TotalText(l)
    ensures k == l
  {
    hide Before, Behind;
    var x, y := TotalText(k)[6..], TotalText(l)[6..];
    TotalParts(k, x);
    TotalParts(l, y);
  }

  lemma TotalParts(k: TotalKey, s: string)
    requires Plain(k) && s == TotalText(k)[6..]
    ensures Before(s) == k.pair.kind && Before(Behind(s)) == k.pair.plugin
    ensures k.Versioned? ==> Behind(s) == k.pair.plugin + ":" + k.version && Behind(Behind(s)) == k.version
    ensures k.PerPlugin? ==> Behind(s) == k.pair.plugin
  {
    hide Before, Behind;
    FirstPart(k.pair.plugin, "");
    match k
    case PerPlugin(p) =>
      assert s == p.kind + ":" + p.plugin;
      FirstPart(p.kind, p.plugin);
    case Versioned(p, version) =>
      assert s == p.kind + ":" + (p.plugin + ":" + version);
      FirstPart(p.kind, p.plugin + ":" + version);
      FirstPart(p.plugin, version);
  }
}

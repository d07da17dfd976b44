/** The elements of a user environment and the attributes that decide between them. */
module Packages {
  import opened Basics
  import opened Versions
  import opened Selection

  datatype Meta = MetaInt(i: int) | MetaBool(b: bool) | MetaString(s: string) | MetaOther

  datatype Package = Package(name: string, system: string, outPath: string, meta: map<string, Meta>)

  const MIN_INT64 := -9223372036854775808
  const MAX_INT64 := 9223372036854775807

  /** Integer attributes may be written as strings, as `--set-flag` writes them. */
  function MetaIntOr(p: Package, attr: string, default: int): int {
    if attr !in p.meta then default
    else match p.meta[attr]
      case MetaInt(i) => i
      case MetaString(s) =>
        var n := ParseInt(s, MIN_INT64, MAX_INT64);
        if n.Some? then n.value else default
      case _ => default
  }

  predicate MetaBoolOr(p: Package, attr: string, default: bool) {
    if attr !in p.meta then default
    else match p.meta[attr]
      case MetaBool(b) => b
      case MetaString(s) => if s == "true" then true else if s == "false" then false else default
      case _ => default
  }

  function Priority(p: Package): int {
    MetaIntOr(p, "priority", 0)
  }

  /** A smaller number is a higher priority: Less means that b is to be preferred. */
  function ComparePriorities(a: Package, b: Package): Ordering {
    CompareInts(Priority(b), Priority(a))
  }

  predicate Keep(p: Package) {
    MetaBoolOr(p, "keep", false)
  }

  function ShortName(p: Package): string {
    PackageName(p.name)
  }

  function Version(p: Package): string {
    VersionPart(p.name)
  }

  /** Priority first, then version. Less means that b is to be preferred. */
  function Preference(a: Package, b: Package): Ordering {
    var d := ComparePriorities(a, b);
    if d == Equal then Compare(Version(a), Version(b)) else d
  }

  lemma PreferenceFlips(a: Package, b: Package)
    ensures Preference(b, a) == Preference(a, b).Flip()
  {
    CompareFlips(Version(a), Version(b));
  }

  lemma PreferenceTransitive(a: Package, b: Package, c: Package)
    requires Preference(a, b) != Greater && Preference(b, c) != Greater
    ensures Preference(a, c) != Greater
    ensures Preference(a, c) == Equal ==> Preference(a, b) == Equal && Preference(b, c) == Equal
  {
    if Priority(a) == Priority(b) == Priority(c) { CompareTransitive(Version(a), Version(b), Version(c)); }
  }

  lemma PreferenceIsOrder()
    ensures TotalPreorder(Preference)
  {
    forall a, b ensures Preference(b, a) == Preference(a, b).Flip() { PreferenceFlips(a, b); }
    forall a, b, c | Preference(a, b) != Greater && Preference(b, c) != Greater
      ensures Preference(a, c) != Greater
      ensures Preference(a, c) == Equal ==> Preference(a, b) == Equal && Preference(b, c) == Equal
    {
      PreferenceTransitive(a, b, c);
    }
  }
}

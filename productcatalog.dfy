/** The product catalogue page (frontend/src/pages/ProductCatalog.js): the placeholder image
    chosen from a product's name, and the category filter with the search. */
module ProductCatalogPage {
  import Text
  import Seqs

  /** The placeholder images, by kind. */
  datatype ImageKind = Ram | HardDrive | Motherboard | Cpu | DefaultImage

  /** The classification rules in the order they are tried, each with its keywords. */
  const Rules: seq<(ImageKind, seq<string>)> := [
    (Ram, ["ram", "memory"]),
    (HardDrive, ["hard", "drive", "hdd", "ssd"]),
    (Motherboard, ["motherboard", "board"]),
    (Cpu, ["cpu", "processor"])
  ]

  /** Some keyword of rule `i` occurs in the lower-cased name. */
  predicate RuleMatches(lowerName: string, i: nat)
    requires i < |Rules|
  {
    exists w :: w in Rules[i].1 && Text.Contains(lowerName, w)
  }

  /** The kind of the first rule from `i` on that matches, or the default. */
  function ClassifyFrom(lowerName: string, i: nat): (kind: ImageKind)
    requires i <= |Rules|
    ensures kind == DefaultImage <==> forall j :: i <= j < |Rules| ==> !RuleMatches(lowerName, j)
    decreases |Rules| - i
  {
    if i == |Rules| then DefaultImage
    else if RuleMatches(lowerName, i) then Rules[i].0
    else ClassifyFrom(lowerName, i + 1)
  }

  /** `getDefaultImage`: the kind of placeholder shown for a product name. */
  function DefaultImageFor(productName: string): ImageKind
  {
    ClassifyFrom(Text.Lower(productName), 0)
  }

  /** The rule chosen is the first one that matches. */
  lemma {:induction false} FirstMatchingRuleWins(lowerName: string, i: nat, j: nat)
    requires i <= j < |Rules| && RuleMatches(lowerName, j)
    requires forall k :: i <= k < j ==> !RuleMatches(lowerName, k)
    ensures ClassifyFrom(lowerName, i) == Rules[j].0
    decreases j - i
  {
    if i < j {
      FirstMatchingRuleWins(lowerName, i + 1, j);
    }
  }

  /** The classification ignores case. */
  lemma DefaultImageIgnoresCase(a: string, b: string)
    requires Text.Lower(a) == Text.Lower(b)
    ensures DefaultImageFor(a) == DefaultImageFor(b)
  {
  }

  /** The keyword "motherboard" never decides anything: every name containing it also
      contains "board", the next keyword of the same rule. */
  lemma MotherboardKeywordRedundant(lowerName: string)
    requires Text.Contains(lowerName, "motherboard")
    ensures Text.Contains(lowerName, "board")
  {
    assert "motherboard"[6..11] == "board";
    assert Text.OccursAt("motherboard", "board", 6);
    Text.ContainsTrans(lowerName, "motherboard", "board");
  }

  /** A memory keyword anywhere wins over every later rule: a motherboard whose name mentions
      RAM gets the RAM picture. */
  lemma RamBeatsMotherboard()
    ensures DefaultImageFor("Board with RAM") == Ram
  {
    var n := Text.Lower("Board with RAM");
    assert n == "board with ram";
    assert Text.OccursAt(n, "ram", 11);
    assert "ram" in Rules[0].1 && Text.Contains(n, "ram");
    assert RuleMatches(n, 0);
  }

  // ---------- catalogue filter ----------

  /** A product as listed: its name and description, both present. */
  datatype Product = Product(name: string, description: string)

  /** The category filter ('all', or a word the name must contain) and the search over name
      and description, both ignoring case. */
  predicate CatalogMatch(p: Product, filter: string, search: string)
  {
    (filter == "all" || Text.ContainsCI(p.name, filter)) &&
    (Text.ContainsCI(p.name, search) || Text.ContainsCI(p.description, search))
  }

  /** `filteredProducts`: the products passing both tests, each as often as it occurs and in
      catalogue order. */
  function FilteredProducts(products: seq<Product>, filter: string, search: string): (r: seq<Product>)
    ensures Seqs.IsSubseq(r, products)
    ensures forall k :: 0 <= k < |products| ==> (products[k] in r <==> CatalogMatch(products[k], filter, search))
    ensures forall p :: multiset(r)[p] == if CatalogMatch(p, filter, search) then multiset(products)[p] else 0
  {
    Seqs.FilterCounts(p => CatalogMatch(p, filter, search), products);
    Seqs.Filter(p => CatalogMatch(p, filter, search), products)
  }

  /** Filter 'all' with an empty search shows the whole catalogue. */
  lemma NoFilterShowsAll(products: seq<Product>)
    ensures FilteredProducts(products, "all", "") == products
  {
    forall k | 0 <= k < |products|
      ensures CatalogMatch(products[k], "all", "")
    {
      Text.ContainsEmpty(Text.Lower(products[k].name));
      assert Text.Lower("") == "";
    }
    Seqs.FilterAll(p => CatalogMatch(p, "all", ""), products);
  }
}

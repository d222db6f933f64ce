/**
  The static package catalog and the two package routes: the full list in
  display form and the lookup of one package by id. Prices are integers in
  paise (1 rupee = 100 paise).
 */
module Catalog {
  import opened Common

  datatype Package = Package(id: int, name: string, price: int, desc: string, featured: bool)

  const Packages: seq<Package> := [
    Package(1, "STARTER PACKAGE", 50000, "Begin your digital journey with fundamental skills.", false),
    Package(2, "BASIC PACKAGE", 149900, "Expand your knowledge with essential digital marketing modules.", false),
    Package(3, "SILVER PACKAGE", 299900, "Build intermediate expertise with live mentoring and resources.", false),
    Package(4, "GOLD PACKAGE", 549900, "Master advanced strategies with real-world case studies and 1:1 mentoring.", true),
    Package(5, "DIAMOND PACKAGE", 999900, "Full suite of professional courses with personal mentoring and exclusive content.", false),
    Package(6, "PREMIUM PACKAGE", 1499900, "The ultimate package \U{2014} all courses, all features, lifetime access and dedicated support.", false)
  ]

  /** The shape of the catalog: six packages numbered 1 to 6 in order, priced in whole rupees, only GOLD (id 4) featured. */
  lemma CatalogShape()
    ensures |Packages| == 6
    ensures forall k :: 0 <= k < |Packages| ==> Packages[k].id == k + 1
    ensures forall k :: 0 <= k < |Packages| ==> Packages[k].price > 0 && Packages[k].price % 100 == 0
    ensures forall k :: 0 <= k < |Packages| ==> (Packages[k].featured <==> Packages[k].id == 4)
    ensures forall i, j :: 0 <= i < j < |Packages| ==> Packages[i].id < Packages[j].id
  {
  }

  /** `ps.find(p => p.id === x)` */
  function FindIn(ps: seq<Package>, x: Numeric): (r: Option<Package>)
    ensures r.Some? ==> r.value in ps && NumberIs(x, r.value.id)
    ensures r.Some? ==> exists k :: 0 <= k < |ps| && ps[k] == r.value &&
                          forall j :: 0 <= j < k ==> !NumberIs(x, ps[j].id)
    ensures r.None? <==> forall k :: 0 <= k < |ps| ==> !NumberIs(x, ps[k].id)
    decreases |ps|
  {
    if |ps| == 0 then None
    else if NumberIs(x, ps[0].id) then Some(ps[0])
    else
      var r := FindIn(ps[1..], x);
      assert r.Some? ==> exists k :: 0 <= k < |ps| && ps[k] == r.value &&
                          forall j :: 0 <= j < k ==> !NumberIs(x, ps[j].id) by {
        if r.Some? {
          var k :| 0 <= k < |ps[1..]| && ps[1..][k] == r.value &&
                   forall j :: 0 <= j < k ==> !NumberIs(x, ps[1..][j].id);
          assert ps[k + 1] == r.value;
          assert forall j :: 1 <= j < k + 1 ==> ps[j] == ps[1..][j - 1];
        }
      }
      r
  }

  /** `PACKAGES.find(p => p.id === Number(x))` */
  function Find(x: Numeric): Option<Package> {
    FindIn(Packages, x)
  }

  /** The lookup answers exactly the ids 1 to 6, each with its own package, and nothing that is not a whole number. */
  lemma FindAnswers(x: Numeric)
    ensures x.Whole? && 1 <= x.n <= 6 ==> Find(x) == Some(Packages[x.n - 1])
    ensures !(x.Whole? && 1 <= x.n <= 6) ==> Find(x) == None
  {
    CatalogShape();
    if x.Whole? && 1 <= x.n <= 6 {
      var r := Find(x);
      var k :| 0 <= k < |Packages| && Packages[k] == r.value &&
               forall j :: 0 <= j < k ==> !NumberIs(x, Packages[j].id);
      assert k == x.n - 1;
    }
  }

  /** A package as the API shows it: `price` (a formatted string) is left out, `rawPrice` is in rupees. */
  datatype Display = Display(id: int, name: string, rawPrice: real, desc: string, featured: bool)

  /** `toDisplayFormat` */
  function ToDisplay(p: Package): (d: Display)
    ensures d.id == p.id && d.name == p.name && d.desc == p.desc && d.featured == p.featured
    ensures d.rawPrice * 100.0 == p.price as real
  {
    Display(p.id, p.name, p.price as real / 100.0, p.desc, p.featured)
  }

  /** Recovers the package from its display form: the display loses nothing but the price's unit. */
  function FromDisplay(d: Display): Package {
    Package(d.id, d.name, (d.rawPrice * 100.0).Floor, d.desc, d.featured)
  }

  lemma DisplayRoundTrip(p: Package)
    ensures FromDisplay(ToDisplay(p)) == p
  {
    assert (ToDisplay(p).rawPrice * 100.0).Floor == p.price;
  }

  /** `GET /api/packages`: one display entry per catalog package, in catalog order. */
  function ListPackages(): (r: seq<Display>)
    ensures |r| == |Packages|
    ensures forall k :: 0 <= k < |r| ==> r[k] == ToDisplay(Packages[k])
    ensures forall k :: 0 <= k < |r| ==> FromDisplay(r[k]) == Packages[k]
  {
    var r := seq(|Packages|, k requires 0 <= k < |Packages| => ToDisplay(Packages[k]));
    assert forall k :: 0 <= k < |r| ==> FromDisplay(r[k]) == Packages[k] by {
      forall k | 0 <= k < |r| ensures FromDisplay(r[k]) == Packages[k] {
        DisplayRoundTrip(Packages[k]);
      }
    }
    r
  }

  datatype LookupReply = Found(package: Display) | NotFound(status: int, error: string)

  /** `GET /api/packages/:id` with the route parameter already passed through `Number`. */
  function GetPackage(param: Numeric): (r: LookupReply)
    ensures r.Found? <==> exists k :: 0 <= k < |Packages| && NumberIs(param, Packages[k].id)
    ensures r.Found? ==> FromDisplay(r.package) in Packages && NumberIs(param, r.package.id)
    ensures r.Found? ==> r.package == ToDisplay(FromDisplay(r.package))
    ensures r.NotFound? ==> r.status == 404
  {
    match Find(param)
    case None => NotFound(404, "Package not found.")
    case Some(p) =>
      DisplayRoundTrip(p);
      Found(ToDisplay(p))
  }
}

/** Region names as the P2000 listing writes them, mapped onto the official
    names of the safety regions, and the split of the per-region totals into
    names the region boundaries know and names they do not. */
module Regions {
  import opened Text
  import opened Seqs

  /** The lookup table, keyed by lower-case names without surrounding white
      space. */
  const Mapping: map<string, string> := map[
    "amsterdam-amstelland" := "Amsterdam-Amstelland",
    "brabant noord" := "Brabant-Noord",
    "brabant zuid-oost" := "Brabant-Zuidoost",
    "midden- en west brabant" := "Midden- en West-Brabant",
    "drenthe" := "Drenthe",
    "flevoland" := "Flevoland",
    "frysl\U{E2}n" := "Frysl\U{E2}n",
    "friesland" := "Frysl\U{E2}n",
    "gelderland-midden" := "Gelderland-Midden",
    "gelderland-zuid" := "Gelderland-Zuid",
    "noord- en oost gelderland" := "Noord- en Oost-Gelderland",
    "groningen" := "Groningen",
    "haaglanden" := "Haaglanden",
    "hollands midden" := "Hollands-Midden",
    "ijsselland" := "IJsselland",
    "kennemerland" := "Kennemerland",
    "limburg noord" := "Limburg-Noord",
    "limburg zuid" := "Limburg-Zuid",
    "noord-holland noord" := "Noord-Holland-Noord",
    "rotterdam-rijnmond" := "Rotterdam-Rijnmond",
    "twente" := "Twente",
    "utrecht" := "Utrecht",
    "zaanstreek-waterland" := "Zaanstreek-Waterland",
    "zeeland" := "Zeeland",
    "zuid-holland zuid" := "Zuid-Holland-Zuid",
    "gooi en vechtstreek" := "Gooi en Vechtstreek"
  ]

  /** The lookup key: the name lower-cased, then stripped. */
  function Key(name: string): string
  {
    Strip(Lower(name))
  }

  /** `get_official_name`: "Unknown" for a missing name; the table's name
      for a name whose key is in the table; otherwise the name as given. */
  function OfficialName(name: Option<string>): (r: string)
    ensures name.None? ==> r == "Unknown"
    ensures name.Some? ==> r in Mapping.Values || r == name.value
  {
    match name
    case None => "Unknown"
    case Some(n) => if Key(n) in Mapping then Mapping[Key(n)] else n
  }

  /** A key as the lookup produces it: lower case, no white space at either
      end. */
  predicate Normalised(k: string)
  {
    k != [] && !IsSpace(k[0]) && !IsSpace(k[|k| - 1]) && forall i :: 0 <= i < |k| ==> LowerChar(k[i]) == k[i]
  }

  lemma NormalisedIsKey(k: string)
    requires Normalised(k)
    ensures Key(k) == k
  {
    forall i | 0 <= i < |k| ensures Lower(k)[i] == k[i] {
      assert !IsCapital(k[i]);
    }
    assert Lower(k) == k;
  }

  lemma KeysNormalised1()
    ensures Normalised("amsterdam-amstelland") && Normalised("brabant noord") && Normalised("brabant zuid-oost")
  {
  }

  lemma KeysNormalised2()
    ensures Normalised("midden- en west brabant") && Normalised("drenthe") && Normalised("flevoland")
  {
  }

  lemma KeysNormalised3()
    ensures Normalised("frysl\U{E2}n") && Normalised("friesland") && Normalised("gelderland-midden")
  {
  }

  lemma KeysNormalised4()
    ensures Normalised("gelderland-zuid") && Normalised("noord- en oost gelderland") && Normalised("groningen")
  {
  }

  lemma KeysNormalised5()
    ensures Normalised("haaglanden") && Normalised("hollands midden") && Normalised("ijsselland")
  {
  }

  lemma KeysNormalised6()
    ensures Normalised("kennemerland") && Normalised("limburg noord") && Normalised("limburg zuid")
  {
  }

  lemma KeysNormalised7()
    ensures Normalised("noord-holland noord") && Normalised("rotterdam-rijnmond") && Normalised("twente")
  {
  }

  lemma KeysNormalised8()
    ensures Normalised("utrecht") && Normalised("zaanstreek-waterland") && Normalised("zeeland")
  {
  }

  lemma KeysNormalised9()
    ensures Normalised("zuid-holland zuid") && Normalised("gooi en vechtstreek")
  {
  }

  /** Every key of the table is already lower case and stripped, so the
      lookup reaches every entry. */
  lemma EveryEntryReachable()
    ensures forall k :: k in Mapping ==> Key(k) == k && OfficialName(Some(k)) == Mapping[k]
  {
    KeysNormalised1();
    KeysNormalised2();
    KeysNormalised3();
    KeysNormalised4();
    KeysNormalised5();
    KeysNormalised6();
    KeysNormalised7();
    KeysNormalised8();
    KeysNormalised9();
    forall k | k in Mapping ensures Key(k) == k {
      NormalisedIsKey(k);
    }
  }
  /** `v` lower-cases to `t`, character by character. */
  predicate LowersTo(v: string, t: string)
  {
    |v| == |t| && forall i :: 0 <= i < |v| ==> LowerChar(v[i]) == t[i]
  }

  lemma KeyOf(v: string, t: string)
    requires LowersTo(v, t) && Normalised(t)
    ensures Key(v) == t
  {
    assert Lower(v) == t;
    NormalisedIsKey(t);
  }

  lemma FixedByEntry(v: string, t: string)
    requires LowersTo(v, t) && Normalised(t) && t in Mapping && Mapping[t] == v
    ensures OfficialName(Some(v)) == v
  {
    KeyOf(v, t);
  }

  /** A name whose key is not in the table comes back exactly as given, with
      its case and surrounding white space. */
  lemma FixedByFallback(v: string)
    requires Key(v) !in Mapping
    ensures OfficialName(Some(v)) == v
  {
  }

  lemma AmsterdamAmstellandSpelling() ensures LowersTo("Amsterdam-Amstelland", "amsterdam-amstelland") && Normalised("amsterdam-amstelland") && "amsterdam-amstelland" in Mapping && Mapping["amsterdam-amstelland"] == "Amsterdam-Amstelland" {}
  lemma AmsterdamAmstellandFixed(k: string) requires k == "amsterdam-amstelland" ensures OfficialName(Some(Mapping[k])) == Mapping[k] {
    AmsterdamAmstellandSpelling();
    assert Mapping[k] == "Amsterdam-Amstelland";
    FixedByEntry(Mapping[k], "amsterdam-amstelland");
  }
  lemma BrabantNoordSpelling() ensures LowersTo("Brabant-Noord", "brabant-noord") && Normalised("brabant-noord") && "brabant-noord" !in Mapping {}
  lemma BrabantNoordFixed(k: string) requires k == "brabant noord" ensures OfficialName(Some(Mapping[k])) == Mapping[k] {
    BrabantNoordSpelling();
    assert Mapping[k] == "Brabant-Noord";
    KeyOf(Mapping[k], "brabant-noord");
    FixedByFallback(Mapping[k]);
  }
  lemma BrabantZuidOostSpelling() ensures LowersTo("Brabant-Zuidoost", "brabant-zuidoost") && Normalised("brabant-zuidoost") && "brabant-zuidoost" !in Mapping {}
  lemma BrabantZuidOostFixed(k: string) requires k == "brabant zuid-oost" ensures OfficialName(Some(Mapping[k])) == Mapping[k] {
    BrabantZuidOostSpelling();
    assert Mapping[k] == "Brabant-Zuidoost";
    KeyOf(Mapping[k], "brabant-zuidoost");
    FixedByFallback(Mapping[k]);
  }
  lemma MiddenEnWestBrabantSpelling() ensures LowersTo("Midden- en West-Brabant", "midden- en west-brabant") && Normalised("midden- en west-brabant") && "midden- en west-brabant" !in Mapping {}
  lemma MiddenEnWestBrabantFixed(k: string) requires k == "midden- en west brabant" ensures OfficialName(Some(Mapping[k])) == Mapping[k] {
    MiddenEnWestBrabantSpelling();
    assert Mapping[k] == "Midden- en West-Brabant";
    KeyOf(Mapping[k], "midden- en west-brabant");
    FixedByFallback(Mapping[k]);
  }
  lemma DrentheSpelling() ensures LowersTo("Drenthe", "drenthe") && Normalised("drenthe") && "drenthe" in Mapping && Mapping["drenthe"] == "Drenthe" {}
  lemma DrentheFixed(k: string) requires k == "drenthe" ensures OfficialName(Some(Mapping[k])) == Mapping[k] {
    DrentheSpelling();
    assert Mapping[k] == "Drenthe";
    FixedByEntry(Mapping[k], "drenthe");
  }
  lemma FlevolandSpelling() ensures LowersTo("Flevoland", "flevoland") && Normalised("flevoland") && "flevoland" in Mapping && Mapping["flevoland"] == "Flevoland" {}
  lemma FlevolandFixed(k: string) requires k == "flevoland" ensures OfficialName(Some(Mapping[k])) == Mapping[k] {
    FlevolandSpelling();
    assert Mapping[k] == "Flevoland";
    FixedByEntry(Mapping[k], "flevoland");
  }
  lemma FryslanSpelling() ensures LowersTo("Frysl\U{E2}n", "frysl\U{E2}n") && Normalised("frysl\U{E2}n") && "frysl\U{E2}n" in Mapping && Mapping["frysl\U{E2}n"] == "Frysl\U{E2}n" {}
  lemma FryslanFixed(k: string) requires k == "frysl\U{E2}n" ensures OfficialName(Some(Mapping[k])) == Mapping[k] {
    FryslanSpelling();
    assert Mapping[k] == "Frysl\U{E2}n";
    FixedByEntry(Mapping[k], "frysl\U{E2}n");
  }
  lemma FrieslandFixed(k: string) requires k == "friesland" ensures OfficialName(Some(Mapping[k])) == Mapping[k] {
    FryslanSpelling();
    assert Mapping[k] == "Frysl\U{E2}n";
    FixedByEntry(Mapping[k], "frysl\U{E2}n");
  }
  lemma GelderlandMiddenSpelling() ensures LowersTo("Gelderland-Midden", "gelderland-midden") && Normalised("gelderland-midden") && "gelderland-midden" in Mapping && Mapping["gelderland-midden"] == "Gelderland-Midden" {}
  lemma GelderlandMiddenFixed(k: string) requires k == "gelderland-midden" ensures OfficialName(Some(Mapping[k])) == Mapping[k] {
    GelderlandMiddenSpelling();
    assert Mapping[k] == "Gelderland-Midden";
    FixedByEntry(Mapping[k], "gelderland-midden");
  }
  lemma GelderlandZuidSpelling() ensures LowersTo("Gelderland-Zuid", "gelderland-zuid") && Normalised("gelderland-zuid") && "gelderland-zuid" in Mapping && Mapping["gelderland-zuid"] == "Gelderland-Zuid" {}
  lemma GelderlandZuidFixed(k: string) requires k == "gelderland-zuid" ensures OfficialName(Some(Mapping[k])) == Mapping[k] {
    GelderlandZuidSpelling();
    assert Mapping[k] == "Gelderland-Zuid";
    FixedByEntry(Mapping[k], "gelderland-zuid");
  }
  lemma NoordEnOostGelderlandSpelling() ensures LowersTo("Noord- en Oost-Gelderland", "noord- en oost-gelderland") && Normalised("noord- en oost-gelderland") && "noord- en oost-gelderland" !in Mapping {}
  lemma NoordEnOostGelderlandFixed(k: string) requires k == "noord- en oost gelderland" ensures OfficialName(Some(Mapping[k])) == Mapping[k] {
    NoordEnOostGelderlandSpelling();
    assert Mapping[k] == "Noord- en Oost-Gelderland";
    KeyOf(Mapping[k], "noord- en oost-gelderland");
    FixedByFallback(Mapping[k]);
  }
  lemma GroningenSpelling() ensures LowersTo("Groningen", "groningen") && Normalised("groningen") && "groningen" in Mapping && Mapping["groningen"] == "Groningen" {}
  lemma GroningenFixed(k: string) requires k == "groningen" ensures OfficialName(Some(Mapping[k])) == Mapping[k] {
    GroningenSpelling();
    assert Mapping[k] == "Groningen";
    FixedByEntry(Mapping[k], "groningen");
  }
  lemma HaaglandenSpelling() ensures LowersTo("Haaglanden", "haaglanden") && Normalised("haaglanden") && "haaglanden" in Mapping && Mapping["haaglanden"] == "Haaglanden" {}
  lemma HaaglandenFixed(k: string) requires k == "haaglanden" ensures OfficialName(Some(Mapping[k])) == Mapping[k] {
    HaaglandenSpelling();
    assert Mapping[k] == "Haaglanden";
    FixedByEntry(Mapping[k], "haaglanden");
  }
  lemma HollandsMiddenSpelling() ensures LowersTo("Hollands-Midden", "hollands-midden") && Normalised("hollands-midden") && "hollands-midden" !in Mapping {}
  lemma HollandsMiddenFixed(k: string) requires k == "hollands midden" ensures OfficialName(Some(Mapping[k])) == Mapping[k] {
    HollandsMiddenSpelling();
    assert Mapping[k] == "Hollands-Midden";
    KeyOf(Mapping[k], "hollands-midden");
    FixedByFallback(Mapping[k]);
  }
  lemma IjssellandSpelling() ensures LowersTo("IJsselland", "ijsselland") && Normalised("ijsselland") && "ijsselland" in Mapping && Mapping["ijsselland"] == "IJsselland" {}
  lemma IjssellandFixed(k: string) requires k == "ijsselland" ensures OfficialName(Some(Mapping[k])) == Mapping[k] {
    IjssellandSpelling();
    assert Mapping[k] == "IJsselland";
    FixedByEntry(Mapping[k], "ijsselland");
  }
  lemma KennemerlandSpelling() ensures LowersTo("Kennemerland", "kennemerland") && Normalised("kennemerland") && "kennemerland" in Mapping && Mapping["kennemerland"] == "Kennemerland" {}
  lemma KennemerlandFixed(k: string) requires k == "kennemerland" ensures OfficialName(Some(Mapping[k])) == Mapping[k] {
    KennemerlandSpelling();
    assert Mapping[k] == "Kennemerland";
    FixedByEntry(Mapping[k], "kennemerland");
  }
  lemma LimburgNoordSpelling() ensures LowersTo("Limburg-Noord", "limburg-noord") && Normalised("limburg-noord") && "limburg-noord" !in Mapping {}
  lemma LimburgNoordFixed(k: string) requires k == "limburg noord" ensures OfficialName(Some(Mapping[k])) == Mapping[k] {
    LimburgNoordSpelling();
    assert Mapping[k] == "Limburg-Noord";
    KeyOf(Mapping[k], "limburg-noord");
    FixedByFallback(Mapping[k]);
  }
  lemma LimburgZuidSpelling() ensures LowersTo("Limburg-Zuid", "limburg-zuid") && Normalised("limburg-zuid") && "limburg-zuid" !in Mapping {}
  lemma LimburgZuidFixed(k: string) requires k == "limburg zuid" ensures OfficialName(Some(Mapping[k])) == Mapping[k] {
    LimburgZuidSpelling();
    assert Mapping[k] == "Limburg-Zuid";
    KeyOf(Mapping[k], "limburg-zuid");
    FixedByFallback(Mapping[k]);
  }
  lemma NoordHollandNoordSpelling() ensures LowersTo("Noord-Holland-Noord", "noord-holland-noord") && Normalised("noord-holland-noord") && "noord-holland-noord" !in Mapping {}
  lemma NoordHollandNoordFixed(k: string) requires k == "noord-holland noord" ensures OfficialName(Some(Mapping[k])) == Mapping[k] {
    NoordHollandNoordSpelling();
    assert Mapping[k] == "Noord-Holland-Noord";
    KeyOf(Mapping[k], "noord-holland-noord");
    FixedByFallback(Mapping[k]);
  }
  lemma RotterdamRijnmondSpelling() ensures LowersTo("Rotterdam-Rijnmond", "rotterdam-rijnmond") && Normalised("rotterdam-rijnmond") && "rotterdam-rijnmond" in Mapping && Mapping["rotterdam-rijnmond"] == "Rotterdam-Rijnmond" {}
  lemma RotterdamRijnmondFixed(k: string) requires k == "rotterdam-rijnmond" ensures OfficialName(Some(Mapping[k])) == Mapping[k] {
    RotterdamRijnmondSpelling();
    assert Mapping[k] == "Rotterdam-Rijnmond";
    FixedByEntry(Mapping[k], "rotterdam-rijnmond");
  }
  lemma TwenteSpelling() ensures LowersTo("Twente", "twente") && Normalised("twente") && "twente" in Mapping && Mapping["twente"] == "Twente" {}
  lemma TwenteFixed(k: string) requires k == "twente" ensures OfficialName(Some(Mapping[k])) == Mapping[k] {
    TwenteSpelling();
    assert Mapping[k] == "Twente";
    FixedByEntry(Mapping[k], "twente");
  }
  lemma UtrechtSpelling() ensures LowersTo("Utrecht", "utrecht") && Normalised("utrecht") && "utrecht" in Mapping && Mapping["utrecht"] == "Utrecht" {}
  lemma UtrechtFixed(k: string) requires k == "utrecht" ensures OfficialName(Some(Mapping[k])) == Mapping[k] {
    UtrechtSpelling();
    assert Mapping[k] == "Utrecht";
    FixedByEntry(Mapping[k], "utrecht");
  }
  lemma ZaanstreekWaterlandSpelling() ensures LowersTo("Zaanstreek-Waterland", "zaanstreek-waterland") && Normalised("zaanstreek-waterland") && "zaanstreek-waterland" in Mapping && Mapping["zaanstreek-waterland"] == "Zaanstreek-Waterland" {}
  lemma ZaanstreekWaterlandFixed(k: string) requires k == "zaanstreek-waterland" ensures OfficialName(Some(Mapping[k])) == Mapping[k] {
    ZaanstreekWaterlandSpelling();
    assert Mapping[k] == "Zaanstreek-Waterland";
    FixedByEntry(Mapping[k], "zaanstreek-waterland");
  }
  lemma ZeelandSpelling() ensures LowersTo("Zeeland", "zeeland") && Normalised("zeeland") && "zeeland" in Mapping && Mapping["zeeland"] == "Zeeland" {}
  lemma ZeelandFixed(k: string) requires k == "zeeland" ensures OfficialName(Some(Mapping[k])) == Mapping[k] {
    ZeelandSpelling();
    assert Mapping[k] == "Zeeland";
    FixedByEntry(Mapping[k], "zeeland");
  }
  lemma ZuidHollandZuidSpelling() ensures LowersTo("Zuid-Holland-Zuid", "zuid-holland-zuid") && Normalised("zuid-holland-zuid") && "zuid-holland-zuid" !in Mapping {}
  lemma ZuidHollandZuidFixed(k: string) requires k == "zuid-holland zuid" ensures OfficialName(Some(Mapping[k])) == Mapping[k] {
    ZuidHollandZuidSpelling();
    assert Mapping[k] == "Zuid-Holland-Zuid";
    KeyOf(Mapping[k], "zuid-holland-zuid");
    FixedByFallback(Mapping[k]);
  }
  lemma GooiEnVechtstreekSpelling() ensures LowersTo("Gooi en Vechtstreek", "gooi en vechtstreek") && Normalised("gooi en vechtstreek") && "gooi en vechtstreek" in Mapping && Mapping["gooi en vechtstreek"] == "Gooi en Vechtstreek" {}
  lemma GooiEnVechtstreekFixed(k: string) requires k == "gooi en vechtstreek" ensures OfficialName(Some(Mapping[k])) == Mapping[k] {
    GooiEnVechtstreekSpelling();
    assert Mapping[k] == "Gooi en Vechtstreek";
    FixedByEntry(Mapping[k], "gooi en vechtstreek");
  }

  /** Every official name in the table is mapped to itself: either its key
      is the entry it comes from, or its key is not in the table and the
      name comes back unchanged. */
  lemma ValuesAreFixedPoints()
    ensures forall k :: k in Mapping ==> OfficialName(Some(Mapping[k])) == Mapping[k]
  {
    forall k | k in Mapping ensures OfficialName(Some(Mapping[k])) == Mapping[k] {
      if k == "amsterdam-amstelland" {
        AmsterdamAmstellandFixed(k);
      } else if k == "brabant noord" {
        BrabantNoordFixed(k);
      } else if k == "brabant zuid-oost" {
        BrabantZuidOostFixed(k);
      } else if k == "midden- en west brabant" {
        MiddenEnWestBrabantFixed(k);
      } else if k == "drenthe" {
        DrentheFixed(k);
      } else if k == "flevoland" {
        FlevolandFixed(k);
      } else if k == "frysl\U{E2}n" {
        FryslanFixed(k);
      } else if k == "friesland" {
        FrieslandFixed(k);
      } else if k == "gelderland-midden" {
        GelderlandMiddenFixed(k);
      } else if k == "gelderland-zuid" {
        GelderlandZuidFixed(k);
      } else if k == "noord- en oost gelderland" {
        NoordEnOostGelderlandFixed(k);
      } else if k == "groningen" {
        GroningenFixed(k);
      } else if k == "haaglanden" {
        HaaglandenFixed(k);
      } else if k == "hollands midden" {
        HollandsMiddenFixed(k);
      } else if k == "ijsselland" {
        IjssellandFixed(k);
      } else if k == "kennemerland" {
        KennemerlandFixed(k);
      } else if k == "limburg noord" {
        LimburgNoordFixed(k);
      } else if k == "limburg zuid" {
        LimburgZuidFixed(k);
      } else if k == "noord-holland noord" {
        NoordHollandNoordFixed(k);
      } else if k == "rotterdam-rijnmond" {
        RotterdamRijnmondFixed(k);
      } else if k == "twente" {
        TwenteFixed(k);
      } else if k == "utrecht" {
        UtrechtFixed(k);
      } else if k == "zaanstreek-waterland" {
        ZaanstreekWaterlandFixed(k);
      } else if k == "zeeland" {
        ZeelandFixed(k);
      } else if k == "zuid-holland zuid" {
        ZuidHollandZuidFixed(k);
      } else {
        GooiEnVechtstreekFixed(k);
      }
    }
  }

  /** A name in any letter case with one space on either side finds the
      entry of its lower-case form. */
  lemma PaddedKey(v: string, t: string)
    requires LowersTo(v, t) && Normalised(t)
    ensures Key(" " + v + " ") == t
  {
    assert Lower(" " + v + " ") == " " + t + " ";
    StripPadded(t);
  }

  /** Stripping removes one space on either side of a normalised key. */
  lemma StripPadded(t: string)
    requires Normalised(t)
    ensures Strip(" " + t + " ") == t
  {
    var l := " " + t + " ";
    assert StripLeft(l) == t + " " by {
      assert l[1..] == t + " ";
    }
    assert (t + " ")[..|t|] == t;
  }

  lemma BrabantNoordCapitals() ensures LowersTo("Brabant Noord", "brabant noord") && Normalised("brabant noord") && "brabant noord" in Mapping && Mapping["brabant noord"] == "Brabant-Noord" {}

  /** The lookup ignores letter case and surrounding white space:
      " Brabant Noord " is the region Brabant-Noord. */
  lemma PaddedNameFound(v: string)
    requires v == "Brabant Noord"
    ensures OfficialName(Some(" " + v + " ")) == "Brabant-Noord"
  {
    BrabantNoordCapitals();
    PaddedKey(v, "brabant noord");
  }

  lemma OnbekendSpelling() ensures LowersTo("Onbekend", "onbekend") && Normalised("onbekend") && "onbekend" !in Mapping {}

  /** A name that is not in the table comes back as it was given, with its
      capitals and its white space, not as the lower-cased, stripped key. */
  lemma UnknownNameKept(v: string)
    requires v == "Onbekend"
    ensures OfficialName(Some(" " + v + " ")) == " " + v + " "
  {
    OnbekendSpelling();
    PaddedKey(v, "onbekend");
  }

  lemma FrieslandSpelling() ensures LowersTo("Friesland", "friesland") && Normalised("friesland") && "friesland" in Mapping && Mapping["friesland"] == "Frysl\U{E2}n" {}

  lemma FryslanCapitals() ensures LowersTo("FRYSL\U{C2}N", "frysl\U{E2}n") && Normalised("frysl\U{E2}n") && "frysl\U{E2}n" in Mapping && Mapping["frysl\U{E2}n"] == "Frysl\U{E2}n" {}

  lemma FrieslandFound(n: string)
    requires n == "Friesland"
    ensures OfficialName(Some(n)) == "Frysl\U{E2}n"
  {
    FrieslandSpelling();
    KeyOf(n, "friesland");
  }

  lemma FryslanFound(n: string)
    requires n == "FRYSL\U{C2}N"
    ensures OfficialName(Some(n)) == "Frysl\U{E2}n"
  {
    FryslanCapitals();
    KeyOf(n, "frysl\U{E2}n");
  }

  /** Two different names reach the same region: the Dutch and the Frisian
      name of Fryslân, the latter in capitals (Â lower-cases to â). */
  lemma ManyToOne(a: string, b: string)
    requires a == "Friesland" && b == "FRYSL\U{C2}N"
    ensures a != b && OfficialName(Some(a)) == OfficialName(Some(b)) == "Frysl\U{E2}n"
  {
    FrieslandFound(a);
    FryslanFound(b);
  }

  lemma UnknownSpelling() ensures LowersTo("Unknown", "unknown") && Normalised("unknown") && "unknown" !in Mapping {}

  /** `get_official_name` is idempotent: what it returns is mapped to
      itself, including the "Unknown" of a missing name. */
  lemma Idempotent(name: Option<string>)
    ensures OfficialName(Some(OfficialName(name))) == OfficialName(name)
  {
    match name
    case None =>
      UnknownSpelling();
      KeyOf("Unknown", "unknown");
    FixedByFallback("Unknown");
    case Some(n) =>
      if Key(n) in Mapping {
        ValuesAreFixedPoints();
      }
  }

  // The per-region totals and their split by the region boundaries.

  /** A row of `stats`: a region as the listing writes it (missing in rows
      without one) and its number of calls. */
  datatype RegionTotal = RegionTotal(region: Option<string>, total: nat)

  /** A row of `stats_pd`: a row with a region, and that region's official
      name. */
  datatype NamedTotal = NamedTotal(region: string, total: nat, normalizedName: string)

  /** `dropna(subset=['Region'])`, then a column computed from the region by
      `name`. */
  function Named(stats: seq<RegionTotal>, name: string -> string): (r: seq<NamedTotal>)
    ensures |r| <= |stats|
    ensures forall i :: 0 <= i < |r| ==> r[i].normalizedName == name(r[i].region)
  {
    if stats == [] then []
    else
      var rest := Named(stats[1..], name);
      match stats[0].region
      case None => rest
      case Some(n) => [NamedTotal(n, stats[0].total, name(n))] + rest
  }

  /** Every named row comes from a row of the totals, and every row of the
      totals that has a region is named. */
  lemma {:induction false} NamedRows(stats: seq<RegionTotal>, name: string -> string)
    ensures forall t :: t in Named(stats, name) ==> RegionTotal(Some(t.region), t.total) in stats
    ensures forall x :: x in stats && x.region.Some? ==> NamedTotal(x.region.value, x.total, name(x.region.value)) in Named(stats, name)
  {
    if stats != [] {
      NamedRows(stats[1..], name);
      var r, rest := Named(stats, name), Named(stats[1..], name);
      assert stats == [stats[0]] + stats[1..];
      match stats[0].region
      case None =>
        assert r == rest;
      case Some(n) =>
        var first := NamedTotal(n, stats[0].total, name(n));
        assert r == [first] + rest;
        assert RegionTotal(Some(first.region), first.total) == stats[0];
      forall x | x in stats && x.region.Some?
        ensures NamedTotal(x.region.value, x.total, name(x.region.value)) in r
      {
        if x != stats[0] {
          assert x in stats[1..];
        }
      }
    }
  }

  /** `stats_pd`: the rows with a region, each with the official name of its
      region. */
  function Normalize(stats: seq<RegionTotal>): (r: seq<NamedTotal>)
    ensures |r| <= |stats|
    ensures forall i :: 0 <= i < |r| ==> r[i].normalizedName == OfficialName(Some(r[i].region))
  {
    Named(stats, n => OfficialName(Some(n)))
  }

  /** `dropna` keeps every row with a region, now with its official name,
      and adds none. */
  lemma NormalizeRows(stats: seq<RegionTotal>)
    ensures forall t :: t in Normalize(stats) ==> RegionTotal(Some(t.region), t.total) in stats
    ensures forall x :: x in stats && x.region.Some? ==> NamedTotal(x.region.value, x.total, OfficialName(x.region)) in Normalize(stats)
  {
    NamedRows(stats, n => OfficialName(Some(n)));
  }

  predicate Known(geoNames: seq<string>, t: NamedTotal) { t.normalizedName in geoNames }

  /** `matches`: the rows whose official name is a region of the map. */
  function Matches(rows: seq<NamedTotal>, geoNames: seq<string>): (r: seq<NamedTotal>)
    ensures forall i :: 0 <= i < |r| ==> r[i].normalizedName in geoNames
  {
    Filter(rows, t => Known(geoNames, t))
  }

  /** `mismatches`: the rows whose official name is not a region of the map. */
  function Mismatches(rows: seq<NamedTotal>, geoNames: seq<string>): (r: seq<NamedTotal>)
    ensures forall i :: 0 <= i < |r| ==> r[i].normalizedName !in geoNames
  {
    Filter(rows, t => !Known(geoNames, t))
  }

  /** Matches and mismatches split the rows: together they hold every row as
      often as it occurs, and a row is in the one its name selects and not
      in the other. */
  lemma {:induction false} MatchesPartition(rows: seq<NamedTotal>, geoNames: seq<string>)
    ensures |Matches(rows, geoNames)| + |Mismatches(rows, geoNames)| == |rows|
    ensures multiset(Matches(rows, geoNames)) + multiset(Mismatches(rows, geoNames)) == multiset(rows)
    ensures forall t :: t in rows ==> (t in Matches(rows, geoNames) <==> t.normalizedName in geoNames)
    ensures forall t :: t in rows ==> (t in Mismatches(rows, geoNames) <==> t.normalizedName !in geoNames)
  {
    var p := t => Known(geoNames, t);
    var q := t => !Known(geoNames, t);
    FilterPartition(rows, p, q);
    forall t | t in rows
      ensures t in Matches(rows, geoNames) <==> t.normalizedName in geoNames
      ensures t in Mismatches(rows, geoNames) <==> t.normalizedName !in geoNames
    {
      assert t in multiset(rows);
      if Known(geoNames, t) {
        assert t !in multiset(Mismatches(rows, geoNames));
        assert t in multiset(Matches(rows, geoNames));
      } else {
        assert t !in multiset(Matches(rows, geoNames));
        assert t in multiset(Mismatches(rows, geoNames));
      }
    }
  }

  /** Every named row carries a region of the table or its own name as the
      listing wrote it; the "Unknown" of a missing region never appears,
      since rows without a region are dropped first. */
  lemma {:induction false} NamesOfNormalized(stats: seq<RegionTotal>)
    ensures forall t :: t in Normalize(stats) ==> t.normalizedName in Mapping.Values || t.normalizedName == t.region
  {
    var r := Normalize(stats);
    forall t | t in r ensures t.normalizedName in Mapping.Values || t.normalizedName == t.region {
      var i :| 0 <= i < |r| && r[i] == t;
    }
  }
}


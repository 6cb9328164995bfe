/** The deterministic parts of `BankOfMaharashtraScraper` (src/scraper.py):
    the URL classifier `_extract_loan_type` and the normalisation of the
    base URL done by the constructor. Fetching, retrying and page parsing
    are not part of this model. */
module Scraper {
  import opened Text
  import opened KeywordRules

  /** `_extract_loan_type(url)`: the if/elif chain of substring tests over
      `url.lower()`, first arm wins; the arms are the rows of `UrlRules`.
      The label is always one of the fifteen. */
  function UrlLoanType(url: string): (r: string)
    ensures r in UrlLabels
  {
    assert LabelledBy(UrlRules, OtherLoan, UrlLabels);
    FirstMatchLabelled(UrlRules, Lower(url), OtherLoan, UrlLabels);
    FirstMatch(UrlRules, Lower(url), OtherLoan)
  }

  /** The label returned when no keyword occurs. */
  const OtherLoan := "Other Loan"

  /** The keywords of each arm, in the order the arms are tested. */
  const RetailInterestKeywords := ["retail-interest"]
  const AdvanceKeywords := ["advance"]
  const HomeKeywords := ["home", "housing", "awas", "topup", "green-building"]
  const VehicleKeywords := ["car", "vehicle", "wheeler", "transport"]
  const ProfessionalKeywords := ["doctor", "professional", "mpls"]
  const PersonalKeywords := ["personal", "salary", "lap", "mortgage"]
  const EducationKeywords := ["education", "scholar", "skill"]
  const GoldKeywords := ["gold"]
  const SolarKeywords := ["solar", "rooftop"]
  const DepositKeywords := ["lad"]
  const AdhaarKeywords := ["adhaar"]
  const CovidKeywords := ["covid"]
  const MsmeKeywords := ["msme", "gst", "hotel", "contractor", "mudra", "stand-up", "collateral-free"]
  const AgricultureKeywords := ["kisan", "agri", "farm", "plantation", "estate", "warehouse", "pumpset"]

  /** The classifier's arms as an ordered rule table. */
  const UrlRules: seq<Rule> := [
    Rule(RetailInterestKeywords, "Retail Interest Rates"),
    Rule(AdvanceKeywords, "Interest Rates"),
    Rule(HomeKeywords, "Home Loan"),
    Rule(VehicleKeywords, "Vehicle Loan"),
    Rule(ProfessionalKeywords, "Professional Loan"),
    Rule(PersonalKeywords, "Personal Loan"),
    Rule(EducationKeywords, "Education Loan"),
    Rule(GoldKeywords, "Gold Loan"),
    Rule(SolarKeywords, "Solar Loan"),
    Rule(DepositKeywords, "Loan Against Deposit"),
    Rule(AdhaarKeywords, "Adhaar Loan"),
    Rule(CovidKeywords, "COVID-19 Loan"),
    Rule(MsmeKeywords, "MSME Loan"),
    Rule(AgricultureKeywords, "Agriculture Loan")
  ]

  /** The fifteen labels the classifier can produce. */
  const UrlLabels: set<string> := {
    "Retail Interest Rates", "Interest Rates", "Home Loan", "Vehicle Loan", "Professional Loan",
    "Personal Loan", "Education Loan", "Gold Loan", "Solar Loan", "Loan Against Deposit",
    "Adhaar Loan", "COVID-19 Loan", "MSME Loan", "Agriculture Loan", "Other Loan"
  }

  /** The fourteen arm labels differ from each other and from "Other Loan":
      any two differ in their first letter or in their length. */
  lemma UrlLabelsDistinct()
    ensures DistinctLabels(UrlRules, OtherLoan)
  {
    forall i, j | 0 <= i < j < |UrlRules|
      ensures UrlRules[i].loanType != UrlRules[j].loanType
    {
      var a, b := UrlRules[i].loanType, UrlRules[j].loanType;
      assert a[0] != b[0] || |a| != |b|;
    }
    forall i | 0 <= i < |UrlRules| ensures UrlRules[i].loanType != OtherLoan {
      assert UrlRules[i].loanType[0] != 'O';
    }
  }

  /** Only the lowercase form of the URL matters. */
  lemma UrlLoanTypeCaseInsensitive(url: string)
    ensures UrlLoanType(Lower(url)) == UrlLoanType(url)
  {
    LowerIdempotent(url);
  }

  /** "Other Loan" comes out exactly when no keyword of any rule occurs. */
  lemma UrlLoanTypeOtherIff(url: string)
    ensures UrlLoanType(url) == OtherLoan
            <==> forall j :: 0 <= j < |UrlRules| ==> !Fires(UrlRules, Lower(url), j)
  {
    UrlLabelsDistinct();
    FirstMatchDefaultIff(UrlRules, Lower(url), OtherLoan);
  }

  /** The URL gets rule `i`'s label exactly when rule `i` is the first rule
      with a keyword in the URL. */
  lemma UrlLoanTypeExact(url: string, i: int)
    requires 0 <= i < |UrlRules|
    ensures UrlLoanType(url) == UrlRules[i].loanType
            <==> Fires(UrlRules, Lower(url), i) && forall j :: 0 <= j < i ==> !Fires(UrlRules, Lower(url), j)
  {
    UrlLabelsDistinct();
    FirstMatchExact(UrlRules, Lower(url), OtherLoan, i);
  }

  // Order of the tests

  /** "retail-interest" is tested before "advance": a URL naming both is a
      retail-interest page. */
  lemma RetailInterestBeforeAdvance(url: string)
    requires Contains(Lower(url), "retail-interest") && Contains(Lower(url), "advance")
    ensures UrlLoanType(url) == "Retail Interest Rates"
  {
    assert UrlRules[0].keywords[0] == "retail-interest";
    FirstMatchPicks(UrlRules, Lower(url), OtherLoan, 0);
  }

  /** `base_url.rstrip('/')`: the constructor keeps the base URL without
      its trailing slashes. */
  function NormalizeBaseUrl(baseUrl: string): (r: string)
    ensures r <= baseUrl
    ensures r == [] || r[|r| - 1] != '/'
    ensures forall i :: |r| <= i < |baseUrl| ==> baseUrl[i] == '/'
  {
    RStripChar(baseUrl, '/')
  }

  /** Normalising an already normalised base URL changes nothing. */
  lemma NormalizeBaseUrlIdempotent(baseUrl: string)
    ensures NormalizeBaseUrl(NormalizeBaseUrl(baseUrl)) == NormalizeBaseUrl(baseUrl)
  {
  }
}

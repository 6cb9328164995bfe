/** The URL classifier on sample page paths of the bank's site, where the
    order of the arms decides the label. Each example rests on substring
    facts about its path, each fact in a small lemma of its own. */
module UrlExamples {
  import opened Text
  import opened KeywordRules
  import opened Scraper

  /** A personal-loan page whose path also names a home loan is labelled
      "Home Loan": the home/housing arm precedes the personal arm. */
  lemma PersonalLoanForHomeLoanCustomers(u: string)
    requires u == "/personal-loan-for-businessclass-" + "having-home-loan-" + "with-us"
    ensures UrlLoanType(u) == "Home Loan"
  {
    HomeLoanUrlFacts(u);
    assert UrlRules[0].keywords == RetailInterestKeywords;
    assert !Fires(UrlRules, u, 0);
    assert UrlRules[1].keywords == AdvanceKeywords;
    assert !Fires(UrlRules, u, 1);
    assert UrlRules[2].keywords[0] == "home";
    assert Fires(UrlRules, u, 2);
    FirstMatchPicks(UrlRules, u, OtherLoan, 2);
  }

  /** "/kisan-credit-card" is labelled "Vehicle Loan": "card" contains "car",
      and the vehicle arm precedes the agriculture arm. */
  lemma KisanCreditCardIsVehicleLoan(u: string)
    requires u == "/kisan-credit-card"
    ensures UrlLoanType(u) == "Vehicle Loan"
  {
    KisanCreditCardFacts(u);
    assert UrlRules[0].keywords == RetailInterestKeywords;
    assert !Fires(UrlRules, u, 0);
    assert UrlRules[1].keywords == AdvanceKeywords;
    assert !Fires(UrlRules, u, 1);
    assert UrlRules[2].keywords == HomeKeywords;
    assert !Fires(UrlRules, u, 2);
    assert UrlRules[3].keywords[0] == "car";
    assert Fires(UrlRules, u, 3);
    FirstMatchPicks(UrlRules, u, OtherLoan, 3);
  }

  /** The professional arm precedes the personal arm. */
  lemma PersonalLoanForProfessionals(u: string)
    requires u == "/personal-loan-for-professionals"
    ensures UrlLoanType(u) == "Professional Loan"
  {
    ProfessionalsFacts(u);
    assert UrlRules[0].keywords == RetailInterestKeywords;
    assert !Fires(UrlRules, u, 0);
    assert UrlRules[1].keywords == AdvanceKeywords;
    assert !Fires(UrlRules, u, 1);
    assert UrlRules[2].keywords == HomeKeywords;
    assert !Fires(UrlRules, u, 2);
    assert UrlRules[3].keywords == VehicleKeywords;
    assert !Fires(UrlRules, u, 3);
    assert UrlRules[4].keywords[1] == "professional";
    assert Fires(UrlRules, u, 4);
    FirstMatchPicks(UrlRules, u, OtherLoan, 4);
  }

  /** The gold arm precedes the MSME arm. */
  lemma MsmeGoldLoanIsGoldLoan(u: string)
    requires u == "/msme-gold-loan"
    ensures UrlLoanType(u) == "Gold Loan"
  {
    MsmeGoldFacts(u);
    assert UrlRules[0].keywords == RetailInterestKeywords;
    assert !Fires(UrlRules, u, 0);
    assert UrlRules[1].keywords == AdvanceKeywords;
    assert !Fires(UrlRules, u, 1);
    assert UrlRules[2].keywords == HomeKeywords;
    assert !Fires(UrlRules, u, 2);
    assert UrlRules[3].keywords == VehicleKeywords;
    assert !Fires(UrlRules, u, 3);
    assert UrlRules[4].keywords == ProfessionalKeywords;
    assert !Fires(UrlRules, u, 4);
    assert UrlRules[5].keywords == PersonalKeywords;
    assert !Fires(UrlRules, u, 5);
    assert UrlRules[6].keywords == EducationKeywords;
    assert !Fires(UrlRules, u, 6);
    assert UrlRules[7].keywords[0] == "gold";
    assert Fires(UrlRules, u, 7);
    FirstMatchPicks(UrlRules, u, OtherLoan, 7);
  }

  // "/personal-loan-for-businessclass-having-home-loan-with-us", written as
  // three literals because the solver handles short literals far better

  lemma HomeLoanUrlFacts(u: string)
    requires u == "/personal-loan-for-businessclass-" + "having-home-loan-" + "with-us"
    ensures Lower(u) == u && Contains(u, "home")
    ensures !Contains(u, "retail-interest") && !Contains(u, "advance")
  {
    var x, y, z := "/personal-loan-for-businessclass-", "having-home-loan-", "with-us";
    LowercaseParts(x, y, z);
    NoRetailInterest(x, y, z);
    NoAdvance(x, y, z);
    assert u[40..44] == y[7..11] == "home";
    assert OccursAt(u, "home", 40);
  }

  lemma LowercaseParts(x: string, y: string, z: string)
    requires x == "/personal-loan-for-businessclass-" && y == "having-home-loan-" && z == "with-us"
    ensures Lower(x + y + z) == x + y + z
  {
    LowerOfLowercase(x);
    LowerOfLowercase(y);
    LowerOfLowercase(z);
    LowerAppend(x + y, z);
    LowerAppend(x, y);
  }

  lemma NoRetailInterest(x: string, y: string, z: string)
    requires x == "/personal-loan-for-businessclass-" && y == "having-home-loan-" && z == "with-us"
    ensures !Contains(x + y + z, "retail-interest")
  {
    assert forall i :: 0 <= i < |x| ==> x[i] != 't';
    assert forall i :: 0 <= i < |y| ==> y[i] != 't';
    assert 't' !in x + y;
    AbsentCharInPrefixRulesOut(x + y, z, "retail-interest", 2);
  }

  lemma NoAdvance(x: string, y: string, z: string)
    requires x == "/personal-loan-for-businessclass-" && y == "having-home-loan-" && z == "with-us"
    ensures !Contains(x + y + z, "advance")
  {
    assert forall i :: 0 <= i < |x| ==> x[i] != 'd';
    assert forall i :: 0 <= i < |y| ==> y[i] != 'd';
    assert forall i :: 0 <= i < |z| ==> z[i] != 'd';
    assert 'd' !in x + y + z;
    AbsentCharRulesOut(x + y + z, "advance", 'd');
  }

  // "/kisan-credit-card"

  lemma KisanCreditCardFacts(u: string)
    requires u == "/kisan-credit-card"
    ensures Lower(u) == u && Contains(u, "car")
    ensures !AnyIn(RetailInterestKeywords, u) && !AnyIn(AdvanceKeywords, u)
    ensures !AnyIn(HomeKeywords, u)
  {
    LowerOfLowercase(u);
    KisanCreditCardShape(u);
    KisanCreditCardLacks(u);
    SilentBeforeVehicle(u);
  }

  lemma KisanCreditCardShape(u: string)
    requires u == "/kisan-credit-card"
    ensures Contains(u, "car")
  {
    assert OccursAt(u, "car", 14);
  }

  lemma KisanCreditCardLacks(u: string)
    requires u == "/kisan-credit-card"
    ensures 'l' !in u && 'v' !in u && 'h' !in u && 'w' !in u && 'o' !in u && 'g' !in u
  {
    assert forall i :: 0 <= i < |u| ==>
      u[i] != 'l' && u[i] != 'v' && u[i] != 'h' && u[i] != 'w' && u[i] != 'o' && u[i] != 'g';
  }

  /** Rules 0 to 2 stay silent on any text lacking these six characters. */
  lemma SilentBeforeVehicle(u: string)
    requires 'l' !in u && 'v' !in u && 'h' !in u && 'w' !in u && 'o' !in u && 'g' !in u
    ensures !AnyIn(RetailInterestKeywords, u) && !AnyIn(AdvanceKeywords, u)
    ensures !AnyIn(HomeKeywords, u)
  {
    NoneInByAbsentChars(RetailInterestKeywords, u, ['l']);
    NoneInByAbsentChars(AdvanceKeywords, u, ['v']);
    NoneInByAbsentChars(HomeKeywords, u, ['h', 'h', 'w', 'o', 'g']);
  }

  // "/personal-loan-for-professionals"

  lemma ProfessionalsFacts(u: string)
    requires u == "/personal-loan-for-professionals"
    ensures Lower(u) == u && Contains(u, "professional")
    ensures !AnyIn(RetailInterestKeywords, u) && !AnyIn(AdvanceKeywords, u)
    ensures !AnyIn(HomeKeywords, u)
    ensures !AnyIn(VehicleKeywords, u)
  {
    LowerOfLowercase(u);
    ProfessionalsShape(u);
    ProfessionalsLacks(u);
    SilentBeforeProfessional(u);
  }

  lemma ProfessionalsShape(u: string)
    requires u == "/personal-loan-for-professionals"
    ensures Contains(u, "professional")
  {
    assert OccursAt(u, "professional", 19);
  }

  lemma ProfessionalsLacks(u: string)
    requires u == "/personal-loan-for-professionals"
    ensures 't' !in u && 'd' !in u && 'h' !in u && 'w' !in u && 'g' !in u && 'c' !in u && 'v' !in u
  {
    assert forall i :: 0 <= i < |u| ==>
      u[i] != 't' && u[i] != 'd' && u[i] != 'h' && u[i] != 'w' && u[i] != 'g' && u[i] != 'c' && u[i] != 'v';
  }

  /** Rules 0 to 3 stay silent on any text lacking these seven characters. */
  lemma SilentBeforeProfessional(u: string)
    requires 't' !in u && 'd' !in u && 'h' !in u && 'w' !in u && 'g' !in u && 'c' !in u && 'v' !in u
    ensures !AnyIn(RetailInterestKeywords, u) && !AnyIn(AdvanceKeywords, u)
    ensures !AnyIn(HomeKeywords, u)
    ensures !AnyIn(VehicleKeywords, u)
  {
    NoneInByAbsentChars(RetailInterestKeywords, u, ['t']);
    NoneInByAbsentChars(AdvanceKeywords, u, ['d']);
    NoneInByAbsentChars(HomeKeywords, u, ['h', 'h', 'w', 't', 'g']);
    NoneInByAbsentChars(VehicleKeywords, u, ['c', 'v', 'w', 't']);
  }

  // "/msme-gold-loan"

  lemma MsmeGoldFacts(u: string)
    requires u == "/msme-gold-loan"
    ensures Lower(u) == u && Contains(u, "gold")
    ensures !AnyIn(RetailInterestKeywords, u) && !AnyIn(AdvanceKeywords, u)
    ensures !AnyIn(HomeKeywords, u)
    ensures !AnyIn(VehicleKeywords, u)
    ensures !AnyIn(ProfessionalKeywords, u)
    ensures !AnyIn(PersonalKeywords, u)
    ensures !AnyIn(EducationKeywords, u)
  {
    LowerOfLowercase(u);
    MsmeGoldShape(u);
    MsmeGoldLacks(u);
    SilentBeforeGold(u);
  }

  lemma MsmeGoldShape(u: string)
    requires u == "/msme-gold-loan"
    ensures Contains(u, "gold")
  {
    assert OccursAt(u, "gold", 6);
  }

  lemma MsmeGoldLacks(u: string)
    requires u == "/msme-gold-loan"
    ensures 'r' !in u && 'v' !in u && 'h' !in u && 'w' !in u && 't' !in u && 'c' !in u && 'p' !in u && 'u' !in u && 'k' !in u
  {
    assert forall i :: 0 <= i < |u| ==>
      u[i] != 'r' && u[i] != 'v' && u[i] != 'h' && u[i] != 'w' && u[i] != 't' && u[i] != 'c' && u[i] != 'p' && u[i] != 'u' && u[i] != 'k';
  }

  /** Rules 0 to 6 stay silent on any text lacking these nine characters. */
  lemma SilentBeforeGold(u: string)
    requires 'r' !in u && 'v' !in u && 'h' !in u && 'w' !in u && 't' !in u && 'c' !in u && 'p' !in u && 'u' !in u && 'k' !in u
    ensures !AnyIn(RetailInterestKeywords, u) && !AnyIn(AdvanceKeywords, u)
    ensures !AnyIn(HomeKeywords, u)
    ensures !AnyIn(VehicleKeywords, u)
    ensures !AnyIn(ProfessionalKeywords, u)
    ensures !AnyIn(PersonalKeywords, u)
    ensures !AnyIn(EducationKeywords, u)
  {
    NoneInByAbsentChars(RetailInterestKeywords, u, ['r']);
    NoneInByAbsentChars(AdvanceKeywords, u, ['v']);
    NoneInByAbsentChars(HomeKeywords, u, ['h', 'h', 'w', 't', 'r']);
    NoneInByAbsentChars(VehicleKeywords, u, ['c', 'v', 'w', 't']);
    NoneInByAbsentChars(ProfessionalKeywords, u, ['c', 'p', 'p']);
    NoneInByAbsentChars(PersonalKeywords, u, ['p', 'r', 'p', 'r']);
    NoneInByAbsentChars(EducationKeywords, u, ['u', 'c', 'k']);
  }
}

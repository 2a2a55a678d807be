/** Facts about the concrete serving tables, checked entry by entry: the
    (field, level) table reproduces the adapter's column list, and the
    tables satisfy `Layout`. */
module SchemaFacts {
  import opened ServingSchema

  lemma Entry0()
    ensures Schema[0] == Numeric("SeniorCitizen")
    ensures ColumnName(Schema[0]) == ExpectedSchemaCols[0]
  {
    assert Schema[0] == Numeric("SeniorCitizen");
    assert ExpectedSchemaCols[0] == "SeniorCitizen";
  }

  lemma Entry1()
    ensures Schema[1] == Numeric("tenure")
    ensures ColumnName(Schema[1]) == ExpectedSchemaCols[1]
  {
    assert Schema[1] == Numeric("tenure");
    assert ExpectedSchemaCols[1] == "tenure";
  }

  lemma Entry2()
    ensures Schema[2] == Numeric("MonthlyCharges")
    ensures ColumnName(Schema[2]) == ExpectedSchemaCols[2]
  {
    assert Schema[2] == Numeric("MonthlyCharges");
    assert ExpectedSchemaCols[2] == "MonthlyCharges";
  }

  lemma Entry3()
    ensures Schema[3] == Numeric("TotalCharges")
    ensures ColumnName(Schema[3]) == ExpectedSchemaCols[3]
  {
    assert Schema[3] == Numeric("TotalCharges");
    assert ExpectedSchemaCols[3] == "TotalCharges";
  }

  lemma Entry4()
    ensures Schema[4] == Indicator("gender", "Male")
    ensures ColumnName(Schema[4]) == ExpectedSchemaCols[4]
  {
    assert Schema[4] == Indicator("gender", "Male");
    assert ExpectedSchemaCols[4] == "gender_Male";
    JoinedName("gender", "Male", "gender_Male");
  }

  lemma Entry5()
    ensures Schema[5] == Indicator("Partner", "Yes")
    ensures ColumnName(Schema[5]) == ExpectedSchemaCols[5]
  {
    assert Schema[5] == Indicator("Partner", "Yes");
    assert ExpectedSchemaCols[5] == "Partner_Yes";
    JoinedName("Partner", "Yes", "Partner_Yes");
  }

  lemma Entry6()
    ensures Schema[6] == Indicator("Dependents", "Yes")
    ensures ColumnName(Schema[6]) == ExpectedSchemaCols[6]
  {
    assert Schema[6] == Indicator("Dependents", "Yes");
    assert ExpectedSchemaCols[6] == "Dependents_Yes";
    JoinedName("Dependents", "Yes", "Dependents_Yes");
  }

  lemma Entry7()
    ensures Schema[7] == Indicator("PhoneService", "Yes")
    ensures ColumnName(Schema[7]) == ExpectedSchemaCols[7]
  {
    assert Schema[7] == Indicator("PhoneService", "Yes");
    assert ExpectedSchemaCols[7] == "PhoneService_Yes";
    JoinedName("PhoneService", "Yes", "PhoneService_Yes");
  }

  lemma Entry8()
    ensures Schema[8] == Indicator("MultipleLines", "No phone service")
    ensures ColumnName(Schema[8]) == ExpectedSchemaCols[8]
  {
    assert Schema[8] == Indicator("MultipleLines", "No phone service");
    assert ExpectedSchemaCols[8] == "MultipleLines_No phone service";
    JoinedName("MultipleLines", "No phone service", "MultipleLines_No phone service");
  }

  lemma Entry9()
    ensures Schema[9] == Indicator("MultipleLines", "Yes")
    ensures ColumnName(Schema[9]) == ExpectedSchemaCols[9]
  {
    assert Schema[9] == Indicator("MultipleLines", "Yes");
    assert ExpectedSchemaCols[9] == "MultipleLines_Yes";
    JoinedName("MultipleLines", "Yes", "MultipleLines_Yes");
  }

  lemma Entry10()
    ensures Schema[10] == Indicator("InternetService", "Fiber optic")
    ensures ColumnName(Schema[10]) == ExpectedSchemaCols[10]
  {
    assert Schema[10] == Indicator("InternetService", "Fiber optic");
    assert ExpectedSchemaCols[10] == "InternetService_Fiber optic";
    JoinedName("InternetService", "Fiber optic", "InternetService_Fiber optic");
  }

  lemma Entry11()
    ensures Schema[11] == Indicator("InternetService", "No")
    ensures ColumnName(Schema[11]) == ExpectedSchemaCols[11]
  {
    assert Schema[11] == Indicator("InternetService", "No");
    assert ExpectedSchemaCols[11] == "InternetService_No";
    JoinedName("InternetService", "No", "InternetService_No");
  }

  lemma Entry12()
    ensures Schema[12] == Indicator("OnlineSecurity", "No internet service")
    ensures ColumnName(Schema[12]) == ExpectedSchemaCols[12]
  {
    assert Schema[12] == Indicator("OnlineSecurity", "No internet service");
    assert ExpectedSchemaCols[12] == "OnlineSecurity_No internet service";
    JoinedName("OnlineSecurity", "No internet service", "OnlineSecurity_No internet service");
  }

  lemma Entry13()
    ensures Schema[13] == Indicator("OnlineSecurity", "Yes")
    ensures ColumnName(Schema[13]) == ExpectedSchemaCols[13]
  {
    assert Schema[13] == Indicator("OnlineSecurity", "Yes");
    assert ExpectedSchemaCols[13] == "OnlineSecurity_Yes";
    JoinedName("OnlineSecurity", "Yes", "OnlineSecurity_Yes");
  }

  lemma Entry14()
    ensures Schema[14] == Indicator("OnlineBackup", "No internet service")
    ensures ColumnName(Schema[14]) == ExpectedSchemaCols[14]
  {
    assert Schema[14] == Indicator("OnlineBackup", "No internet service");
    assert ExpectedSchemaCols[14] == "OnlineBackup_No internet service";
    JoinedName("OnlineBackup", "No internet service", "OnlineBackup_No internet service");
  }

  lemma Entry15()
    ensures Schema[15] == Indicator("OnlineBackup", "Yes")
    ensures ColumnName(Schema[15]) == ExpectedSchemaCols[15]
  {
    assert Schema[15] == Indicator("OnlineBackup", "Yes");
    assert ExpectedSchemaCols[15] == "OnlineBackup_Yes";
    JoinedName("OnlineBackup", "Yes", "OnlineBackup_Yes");
  }

  lemma Entry16()
    ensures Schema[16] == Indicator("DeviceProtection", "No internet service")
    ensures ColumnName(Schema[16]) == ExpectedSchemaCols[16]
  {
    assert Schema[16] == Indicator("DeviceProtection", "No internet service");
    assert ExpectedSchemaCols[16] == "DeviceProtection_No internet service";
    JoinedName("DeviceProtection", "No internet service", "DeviceProtection_No internet service");
  }

  lemma Entry17()
    ensures Schema[17] == Indicator("DeviceProtection", "Yes")
    ensures ColumnName(Schema[17]) == ExpectedSchemaCols[17]
  {
    assert Schema[17] == Indicator("DeviceProtection", "Yes");
    assert ExpectedSchemaCols[17] == "DeviceProtection_Yes";
    JoinedName("DeviceProtection", "Yes", "DeviceProtection_Yes");
  }

  lemma Entry18()
    ensures Schema[18] == Indicator("TechSupport", "No internet service")
    ensures ColumnName(Schema[18]) == ExpectedSchemaCols[18]
  {
    assert Schema[18] == Indicator("TechSupport", "No internet service");
    assert ExpectedSchemaCols[18] == "TechSupport_No internet service";
    JoinedName("TechSupport", "No internet service", "TechSupport_No internet service");
  }

  lemma Entry19()
    ensures Schema[19] == Indicator("TechSupport", "Yes")
    ensures ColumnName(Schema[19]) == ExpectedSchemaCols[19]
  {
    assert Schema[19] == Indicator("TechSupport", "Yes");
    assert ExpectedSchemaCols[19] == "TechSupport_Yes";
    JoinedName("TechSupport", "Yes", "TechSupport_Yes");
  }

  lemma Entry20()
    ensures Schema[20] == Indicator("StreamingTV", "No internet service")
    ensures ColumnName(Schema[20]) == ExpectedSchemaCols[20]
  {
    assert Schema[20] == Indicator("StreamingTV", "No internet service");
    assert ExpectedSchemaCols[20] == "StreamingTV_No internet service";
    JoinedName("StreamingTV", "No internet service", "StreamingTV_No internet service");
  }

  lemma Entry21()
    ensures Schema[21] == Indicator("StreamingTV", "Yes")
    ensures ColumnName(Schema[21]) == ExpectedSchemaCols[21]
  {
    assert Schema[21] == Indicator("StreamingTV", "Yes");
    assert ExpectedSchemaCols[21] == "StreamingTV_Yes";
    JoinedName("StreamingTV", "Yes", "StreamingTV_Yes");
  }

  lemma Entry22()
    ensures Schema[22] == Indicator("StreamingMovies", "No internet service")
    ensures ColumnName(Schema[22]) == ExpectedSchemaCols[22]
  {
    assert Schema[22] == Indicator("StreamingMovies", "No internet service");
    assert ExpectedSchemaCols[22] == "StreamingMovies_No internet service";
    JoinedName("StreamingMovies", "No internet service", "StreamingMovies_No internet service");
  }

  lemma Entry23()
    ensures Schema[23] == Indicator("StreamingMovies", "Yes")
    ensures ColumnName(Schema[23]) == ExpectedSchemaCols[23]
  {
    assert Schema[23] == Indicator("StreamingMovies", "Yes");
    assert ExpectedSchemaCols[23] == "StreamingMovies_Yes";
    JoinedName("StreamingMovies", "Yes", "StreamingMovies_Yes");
  }

  lemma Entry24()
    ensures Schema[24] == Indicator("Contract", "One year")
    ensures ColumnName(Schema[24]) == ExpectedSchemaCols[24]
  {
    assert Schema[24] == Indicator("Contract", "One year");
    assert ExpectedSchemaCols[24] == "Contract_One year";
    JoinedName("Contract", "One year", "Contract_One year");
  }

  lemma Entry25()
    ensures Schema[25] == Indicator("Contract", "Two year")
    ensures ColumnName(Schema[25]) == ExpectedSchemaCols[25]
  {
    assert Schema[25] == Indicator("Contract", "Two year");
    assert ExpectedSchemaCols[25] == "Contract_Two year";
    JoinedName("Contract", "Two year", "Contract_Two year");
  }

  lemma Entry26()
    ensures Schema[26] == Indicator("PaperlessBilling", "Yes")
    ensures ColumnName(Schema[26]) == ExpectedSchemaCols[26]
  {
    assert Schema[26] == Indicator("PaperlessBilling", "Yes");
    assert ExpectedSchemaCols[26] == "PaperlessBilling_Yes";
    JoinedName("PaperlessBilling", "Yes", "PaperlessBilling_Yes");
  }

  lemma Entry27()
    ensures Schema[27] == Indicator("PaymentMethod", "Credit card (automatic)")
    ensures ColumnName(Schema[27]) == ExpectedSchemaCols[27]
  {
    assert Schema[27] == Indicator("PaymentMethod", "Credit card (automatic)");
    assert ExpectedSchemaCols[27] == "PaymentMethod_Credit card (automatic)";
    JoinedName("PaymentMethod", "Credit card (automatic)", "PaymentMethod_Credit card (automatic)");
  }

  lemma Entry28()
    ensures Schema[28] == Indicator("PaymentMethod", "Electronic check")
    ensures ColumnName(Schema[28]) == ExpectedSchemaCols[28]
  {
    assert Schema[28] == Indicator("PaymentMethod", "Electronic check");
    assert ExpectedSchemaCols[28] == "PaymentMethod_Electronic check";
    JoinedName("PaymentMethod", "Electronic check", "PaymentMethod_Electronic check");
  }

  lemma Entry29()
    ensures Schema[29] == Indicator("PaymentMethod", "Mailed check")
    ensures ColumnName(Schema[29]) == ExpectedSchemaCols[29]
  {
    assert Schema[29] == Indicator("PaymentMethod", "Mailed check");
    assert ExpectedSchemaCols[29] == "PaymentMethod_Mailed check";
    JoinedName("PaymentMethod", "Mailed check", "PaymentMethod_Mailed check");
  }

  /** A column name spelled out in full is its field, `_` and its level,
      checked piece by piece. */
  lemma JoinedName(f: string, l: string, s: string)
    requires |s| == |f| + 1 + |l| && s[..|f|] == f && s[|f|] == '_' && s[|f| + 1..] == l
    ensures ColumnName(Indicator(f, l)) == s
  {
    assert s == s[..|f|] + [s[|f|]] + s[|f| + 1..];
  }

  lemma ChainEntry0()
    ensures Chains[0] == Chain("gender", ["Male"])
  {
  }

  lemma ChainEntry1()
    ensures Chains[1] == Chain("Partner", ["Yes"])
  {
  }

  lemma ChainEntry2()
    ensures Chains[2] == Chain("Dependents", ["Yes"])
  {
  }

  lemma ChainEntry3()
    ensures Chains[3] == Chain("PhoneService", ["Yes"])
  {
  }

  lemma ChainEntry4()
    ensures Chains[4] == Chain("PaperlessBilling", ["Yes"])
  {
  }

  lemma ChainEntry5()
    ensures Chains[5] == Chain("MultipleLines", ["No phone service", "Yes"])
  {
  }

  lemma ChainEntry6()
    ensures Chains[6] == Chain("InternetService", ["Fiber optic", "No"])
  {
  }

  lemma ChainEntry7()
    ensures Chains[7] == Chain("OnlineSecurity", ["No internet service", "Yes"])
  {
  }

  lemma ChainEntry8()
    ensures Chains[8] == Chain("OnlineBackup", ["No internet service", "Yes"])
  {
  }

  lemma ChainEntry9()
    ensures Chains[9] == Chain("DeviceProtection", ["No internet service", "Yes"])
  {
  }

  lemma ChainEntry10()
    ensures Chains[10] == Chain("TechSupport", ["No internet service", "Yes"])
  {
  }

  lemma ChainEntry11()
    ensures Chains[11] == Chain("StreamingTV", ["No internet service", "Yes"])
  {
  }

  lemma ChainEntry12()
    ensures Chains[12] == Chain("StreamingMovies", ["No internet service", "Yes"])
  {
  }

  lemma ChainEntry13()
    ensures Chains[13] == Chain("Contract", ["One year", "Two year"])
  {
  }

  lemma ChainEntry14()
    ensures Chains[14] == Chain("PaymentMethod", ["Credit card (automatic)", "Electronic check", "Mailed check"])
  {
  }

  lemma EntryAt(i: nat)
    requires i < |Schema|
    ensures ColumnName(Schema[i]) == ExpectedSchemaCols[i]
    ensures i < 4 <==> Schema[i].Numeric?
  {
    if i == 0 { Entry0(); }
    else if i == 1 { Entry1(); }
    else if i == 2 { Entry2(); }
    else if i == 3 { Entry3(); }
    else if i == 4 { Entry4(); }
    else if i == 5 { Entry5(); }
    else if i == 6 { Entry6(); }
    else if i == 7 { Entry7(); }
    else if i == 8 { Entry8(); }
    else if i == 9 { Entry9(); }
    else if i == 10 { Entry10(); }
    else if i == 11 { Entry11(); }
    else if i == 12 { Entry12(); }
    else if i == 13 { Entry13(); }
    else if i == 14 { Entry14(); }
    else if i == 15 { Entry15(); }
    else if i == 16 { Entry16(); }
    else if i == 17 { Entry17(); }
    else if i == 18 { Entry18(); }
    else if i == 19 { Entry19(); }
    else if i == 20 { Entry20(); }
    else if i == 21 { Entry21(); }
    else if i == 22 { Entry22(); }
    else if i == 23 { Entry23(); }
    else if i == 24 { Entry24(); }
    else if i == 25 { Entry25(); }
    else if i == 26 { Entry26(); }
    else if i == 27 { Entry27(); }
    else if i == 28 { Entry28(); }
    else if i == 29 { Entry29(); }
  }

  /** The (field, level) table names its columns exactly as the adapter's
      column list does, position by position. */
  lemma SchemaNamesAreTheListedColumns()
    ensures ColumnNames(Schema) == ExpectedSchemaCols
  {
    forall i | 0 <= i < |Schema|
      ensures ColumnName(Schema[i]) == ExpectedSchemaCols[i]
    {
      EntryAt(i);
    }
  }

  /** Column names at positions `lo1..hi1` differ from those at
      `lo2..hi2`, and from each other where the ranges overlap. */
  predicate NamesDifferBetween(lo1: nat, hi1: nat, lo2: nat, hi2: nat)
    requires hi1 <= |ExpectedSchemaCols| && hi2 <= |ExpectedSchemaCols|
  {
    forall i, j :: lo1 <= i < hi1 && lo2 <= j < hi2 && i < j ==> ExpectedSchemaCols[i] != ExpectedSchemaCols[j]
  }

  // The 435 pairs of names, checked ten positions at a time.
  lemma NamesDiffer00() ensures NamesDifferBetween(0, 10, 0, 10) {}
  lemma NamesDiffer11() ensures NamesDifferBetween(10, 20, 10, 20) {}
  lemma NamesDiffer22() ensures NamesDifferBetween(20, 30, 20, 30) {}
  lemma NamesDiffer01() ensures NamesDifferBetween(0, 10, 10, 20) {}
  lemma NamesDiffer02() ensures NamesDifferBetween(0, 10, 20, 30) {}
  lemma NamesDiffer12() ensures NamesDifferBetween(10, 20, 20, 30) {}

  lemma ListedColumnsDistinct()
    ensures Distinct(ExpectedSchemaCols)
  {
    NamesDiffer00();
    NamesDiffer11();
    NamesDiffer22();
    NamesDiffer01();
    NamesDiffer02();
    NamesDiffer12();
  }

  lemma IndicatorReachedAt(i: nat)
    requires i < |Schema| && Schema[i].Indicator?
    ensures exists k :: 0 <= k < |Chains| && Chains[k].field == Schema[i].field && Schema[i].level in Chains[k].levels
  {
    if i < 4 { EntryAt(i); }
    else if i == 4 { Entry4(); ChainEntry0(); assert Chains[0].field == Schema[4].field && Schema[4].level in Chains[0].levels; }
    else if i == 5 { Entry5(); ChainEntry1(); assert Chains[1].field == Schema[5].field && Schema[5].level in Chains[1].levels; }
    else if i == 6 { Entry6(); ChainEntry2(); assert Chains[2].field == Schema[6].field && Schema[6].level in Chains[2].levels; }
    else if i == 7 { Entry7(); ChainEntry3(); assert Chains[3].field == Schema[7].field && Schema[7].level in Chains[3].levels; }
    else if i == 8 { Entry8(); ChainEntry5(); assert Chains[5].field == Schema[8].field && Schema[8].level in Chains[5].levels; }
    else if i == 9 { Entry9(); ChainEntry5(); assert Chains[5].field == Schema[9].field && Schema[9].level in Chains[5].levels; }
    else if i == 10 { Entry10(); ChainEntry6(); assert Chains[6].field == Schema[10].field && Schema[10].level in Chains[6].levels; }
    else if i == 11 { Entry11(); ChainEntry6(); assert Chains[6].field == Schema[11].field && Schema[11].level in Chains[6].levels; }
    else if i == 12 { Entry12(); ChainEntry7(); assert Chains[7].field == Schema[12].field && Schema[12].level in Chains[7].levels; }
    else if i == 13 { Entry13(); ChainEntry7(); assert Chains[7].field == Schema[13].field && Schema[13].level in Chains[7].levels; }
    else if i == 14 { Entry14(); ChainEntry8(); assert Chains[8].field == Schema[14].field && Schema[14].level in Chains[8].levels; }
    else if i == 15 { Entry15(); ChainEntry8(); assert Chains[8].field == Schema[15].field && Schema[15].level in Chains[8].levels; }
    else if i == 16 { Entry16(); ChainEntry9(); assert Chains[9].field == Schema[16].field && Schema[16].level in Chains[9].levels; }
    else if i == 17 { Entry17(); ChainEntry9(); assert Chains[9].field == Schema[17].field && Schema[17].level in Chains[9].levels; }
    else if i == 18 { Entry18(); ChainEntry10(); assert Chains[10].field == Schema[18].field && Schema[18].level in Chains[10].levels; }
    else if i == 19 { Entry19(); ChainEntry10(); assert Chains[10].field == Schema[19].field && Schema[19].level in Chains[10].levels; }
    else if i == 20 { Entry20(); ChainEntry11(); assert Chains[11].field == Schema[20].field && Schema[20].level in Chains[11].levels; }
    else if i == 21 { Entry21(); ChainEntry11(); assert Chains[11].field == Schema[21].field && Schema[21].level in Chains[11].levels; }
    else if i == 22 { Entry22(); ChainEntry12(); assert Chains[12].field == Schema[22].field && Schema[22].level in Chains[12].levels; }
    else if i == 23 { Entry23(); ChainEntry12(); assert Chains[12].field == Schema[23].field && Schema[23].level in Chains[12].levels; }
    else if i == 24 { Entry24(); ChainEntry13(); assert Chains[13].field == Schema[24].field && Schema[24].level in Chains[13].levels; }
    else if i == 25 { Entry25(); ChainEntry13(); assert Chains[13].field == Schema[25].field && Schema[25].level in Chains[13].levels; }
    else if i == 26 { Entry26(); ChainEntry4(); assert Chains[4].field == Schema[26].field && Schema[26].level in Chains[4].levels; }
    else if i == 27 { Entry27(); ChainEntry14(); assert Chains[14].field == Schema[27].field && Schema[27].level in Chains[14].levels; }
    else if i == 28 { Entry28(); ChainEntry14(); assert Chains[14].field == Schema[28].field && Schema[28].level in Chains[14].levels; }
    else { Entry29(); ChainEntry14(); assert Chains[14].field == Schema[29].field && Schema[29].level in Chains[14].levels; }
  }

  lemma BranchTargetAt(k: nat, m: nat)
    requires k < |Chains| && m < |Chains[k].levels|
    ensures Indicator(Chains[k].field, Chains[k].levels[m]) in Schema
  {
    if k < 5 { BranchTargetLow(k, m); }
    else if k < 10 { BranchTargetMid(k, m); }
    else { BranchTargetHigh(k, m); }
  }

  lemma BranchTargetLow(k: nat, m: nat)
    requires 0 <= k < 5 && k < |Chains| && m < |Chains[k].levels|
    ensures Indicator(Chains[k].field, Chains[k].levels[m]) in Schema
  {
    if k == 0 {
      ChainEntry0(); Entry4(); assert Schema[4] == Indicator(Chains[k].field, Chains[k].levels[m]);
    }
    else if k == 1 {
      ChainEntry1(); Entry5(); assert Schema[5] == Indicator(Chains[k].field, Chains[k].levels[m]);
    }
    else if k == 2 {
      ChainEntry2(); Entry6(); assert Schema[6] == Indicator(Chains[k].field, Chains[k].levels[m]);
    }
    else if k == 3 {
      ChainEntry3(); Entry7(); assert Schema[7] == Indicator(Chains[k].field, Chains[k].levels[m]);
    }
    else {
      ChainEntry4(); Entry26(); assert Schema[26] == Indicator(Chains[k].field, Chains[k].levels[m]);
    }
  }

  lemma BranchTargetMid(k: nat, m: nat)
    requires 5 <= k < 10 && k < |Chains| && m < |Chains[k].levels|
    ensures Indicator(Chains[k].field, Chains[k].levels[m]) in Schema
  {
    if k == 5 {
      ChainEntry5();
      if m == 0 { Entry8(); assert Schema[8] == Indicator(Chains[k].field, Chains[k].levels[m]); }
      else { Entry9(); assert Schema[9] == Indicator(Chains[k].field, Chains[k].levels[m]); }
    }
    else if k == 6 {
      ChainEntry6();
      if m == 0 { Entry10(); assert Schema[10] == Indicator(Chains[k].field, Chains[k].levels[m]); }
      else { Entry11(); assert Schema[11] == Indicator(Chains[k].field, Chains[k].levels[m]); }
    }
    else if k == 7 {
      ChainEntry7();
      if m == 0 { Entry12(); assert Schema[12] == Indicator(Chains[k].field, Chains[k].levels[m]); }
      else { Entry13(); assert Schema[13] == Indicator(Chains[k].field, Chains[k].levels[m]); }
    }
    else if k == 8 {
      ChainEntry8();
      if m == 0 { Entry14(); assert Schema[14] == Indicator(Chains[k].field, Chains[k].levels[m]); }
      else { Entry15(); assert Schema[15] == Indicator(Chains[k].field, Chains[k].levels[m]); }
    }
    else {
      ChainEntry9();
      if m == 0 { Entry16(); assert Schema[16] == Indicator(Chains[k].field, Chains[k].levels[m]); }
      else { Entry17(); assert Schema[17] == Indicator(Chains[k].field, Chains[k].levels[m]); }
    }
  }

  lemma BranchTargetHigh(k: nat, m: nat)
    requires 10 <= k < 15 && k < |Chains| && m < |Chains[k].levels|
    ensures Indicator(Chains[k].field, Chains[k].levels[m]) in Schema
  {
    if k == 10 {
      ChainEntry10();
      if m == 0 { Entry18(); assert Schema[18] == Indicator(Chains[k].field, Chains[k].levels[m]); }
      else { Entry19(); assert Schema[19] == Indicator(Chains[k].field, Chains[k].levels[m]); }
    }
    else if k == 11 {
      ChainEntry11();
      if m == 0 { Entry20(); assert Schema[20] == Indicator(Chains[k].field, Chains[k].levels[m]); }
      else { Entry21(); assert Schema[21] == Indicator(Chains[k].field, Chains[k].levels[m]); }
    }
    else if k == 12 {
      ChainEntry12();
      if m == 0 { Entry22(); assert Schema[22] == Indicator(Chains[k].field, Chains[k].levels[m]); }
      else { Entry23(); assert Schema[23] == Indicator(Chains[k].field, Chains[k].levels[m]); }
    }
    else if k == 13 {
      ChainEntry13();
      if m == 0 { Entry24(); assert Schema[24] == Indicator(Chains[k].field, Chains[k].levels[m]); }
      else { Entry25(); assert Schema[25] == Indicator(Chains[k].field, Chains[k].levels[m]); }
    }
    else {
      ChainEntry14();
      if m == 0 { Entry27(); assert Schema[27] == Indicator(Chains[k].field, Chains[k].levels[m]); }
      else if m == 1 { Entry28(); assert Schema[28] == Indicator(Chains[k].field, Chains[k].levels[m]); }
      else { Entry29(); assert Schema[29] == Indicator(Chains[k].field, Chains[k].levels[m]); }
    }
  }

  lemma ChainFieldsDistinct()
    ensures Distinct(seq(|Chains|, k requires 0 <= k < |Chains| => Chains[k].field))
  {
  }

  lemma CopiedColumnsAreNumeric()
    ensures forall k :: 0 <= k < |CopiedColumns| ==> Numeric(CopiedColumns[k]) in Schema
  {
    forall k | 0 <= k < |CopiedColumns|
      ensures Numeric(CopiedColumns[k]) in Schema
    {
      if k == 0 { Entry0(); assert Schema[0] == Numeric(CopiedColumns[k]); }
      else if k == 1 { Entry1(); assert Schema[1] == Numeric(CopiedColumns[k]); }
      else if k == 2 { Entry2(); assert Schema[2] == Numeric(CopiedColumns[k]); }
      else { Entry3(); assert Schema[3] == Numeric(CopiedColumns[k]); }
    }
  }

  lemma NumericColumnsAreCopied()
    ensures forall i :: 0 <= i < |Schema| && Schema[i].Numeric? ==> Schema[i].field in CopiedColumns
  {
    forall i | 0 <= i < |Schema| && Schema[i].Numeric?
      ensures Schema[i].field in CopiedColumns
    {
      EntryAt(i);
      if i == 0 { Entry0(); } else if i == 1 { Entry1(); } else if i == 2 { Entry2(); } else { Entry3(); }
    }
  }

  lemma CoercedFieldsAreCopied()
    ensures forall k :: 0 <= k < |Coercions| ==> Coercions[k].field in CopiedColumns
  {
  }

  lemma CoercedFieldsDistinct()
    ensures forall j, k :: 0 <= j < k < |Coercions| ==> Coercions[j].field != Coercions[k].field
  {
  }

  /** The concrete tables are well formed. */
  lemma ServingLayout()
    ensures Layout(Schema, Chains, CopiedColumns, Coercions)
  {
    SchemaNamesAreTheListedColumns();
    ListedColumnsDistinct();
    ChainFieldsDistinct();
    CopiedColumnsAreNumeric();
    NumericColumnsAreCopied();
    CoercedFieldsAreCopied();
    forall k, l | 0 <= k < |Chains| && l in Chains[k].levels
      ensures Indicator(Chains[k].field, l) in Schema
    {
      var m :| 0 <= m < |Chains[k].levels| && Chains[k].levels[m] == l;
      BranchTargetAt(k, m);
    }
    forall i | 0 <= i < |Schema| && Schema[i].Indicator?
      ensures exists k :: 0 <= k < |Chains| && Chains[k].field == Schema[i].field && Schema[i].level in Chains[k].levels
    {
      IndicatorReachedAt(i);
    }
  }
}

/**
 * The patient-details screen: the patient's clinic, provider and drug, each
 * kept as the patient's row in a link table of the store and mirrored in the
 * page's state. Choosing one replaces the patient's row (delete all, then
 * insert one), so each table holds at most one row per patient; the drug row
 * copies the catalog prices at the moment of choosing.
 *
 * The deletes that begin a replace are not checked by the source, and are
 * taken to succeed; every other write either succeeds or fails as a whole
 * (the flags named ok), and a failure stops the handler where it is.
 */
module PatientDetails {
  import opened Wrappers
  import opened Tables

  /** A catalog drug. */
  datatype Drug = Drug(id: string, name: string, weeklyPrice: real, monthlyPrice: real, yearlyPrice: real)

  /** A clinic_providers row. */
  datatype ClinicProvider = ClinicProvider(clinicId: string, providerId: string)

  /** The rest of a patient_drugs row: the copied prices and the refill date. */
  datatype DrugSnapshot = DrugSnapshot(weeklyPrice: real, monthlyPrice: real, yearlyPrice: real,
                                       refillDate: Option<string>)

  datatype DetailsState = DetailsState(
    user: Option<string>,
    drugs: seq<Drug>,
    clinicProviders: seq<ClinicProvider>,
    userClinics: Table<string, ()>,
    userProviders: Table<string, ()>,
    patientDrugs: Table<string, DrugSnapshot>,
    userClinic: Option<string>,
    userProvider: Option<string>,
    userDrug: Option<string>,
    refillDate: string,
    newDrugName: string,
    showDrugInput: bool)

  /** A nullable string the source treats as present: neither null nor empty. */
  predicate Present(s: Option<string>)
    ensures Present(s) <==> s != None && s != Some("")
  {
    s.Some? && s.value != ""
  }

  /** Each link table holds at most one row per patient. */
  ghost predicate Valid(s: DetailsState) {
    AtMostOnePerUser(s.userClinics) && AtMostOnePerUser(s.userProviders) && AtMostOnePerUser(s.patientDrugs)
  }

  /** drugs.find(d => d.id === id). */
  function FindDrug(drugs: seq<Drug>, id: string): (r: Option<Drug>)
    ensures r.Some? ==> r.value in drugs && r.value.id == id
    ensures r.None? ==> forall d :: d in drugs ==> d.id != id
  {
    if drugs == [] then None
    else if drugs[0].id == id then Some(drugs[0])
    else FindDrug(drugs[1..], id)
  }

  /** The first provider linked to a clinic (select ... limit(1)), in table order. */
  function FirstLinkedProvider(links: seq<ClinicProvider>, clinicId: string): (r: Option<string>)
    ensures r.Some? ==> ClinicProvider(clinicId, r.value) in links
    ensures r.None? ==> forall l :: l in links ==> l.clinicId != clinicId
  {
    if links == [] then None
    else if links[0].clinicId == clinicId then Some(links[0].providerId)
    else FirstLinkedProvider(links[1..], clinicId)
  }

  /** The characters String.prototype.trim removes that this model knows of. */
  predicate IsSpace(c: char)
    ensures IsSpace(c) <==> c in " \t\n\r\U{000B}\U{000C}\U{00A0}\U{FEFF}"
  {
    c == ' ' || c == '\t' || c == '\n' || c == '\r' || c == '\U{000B}' || c == '\U{000C}' ||
    c == '\U{00A0}' || c == '\U{FEFF}'
  }

  function TrimStart(s: string): (r: string)
    ensures r == [] || !IsSpace(r[0])
    ensures |r| <= |s| && r == s[|s| - |r|..]
    ensures forall i :: 0 <= i < |s| - |r| ==> IsSpace(s[i])
  {
    if s != [] && IsSpace(s[0]) then TrimStart(s[1..]) else s
  }

  function TrimEnd(s: string): (r: string)
    ensures r == [] || !IsSpace(r[|r| - 1])
    ensures |r| <= |s| && r == s[..|r|]
    ensures forall i :: |r| <= i < |s| ==> IsSpace(s[i])
  {
    if s != [] && IsSpace(s[|s| - 1]) then TrimEnd(s[..|s| - 1]) else s
  }

  function Trim(s: string): (r: string)
    ensures r == [] || (!IsSpace(r[0]) && !IsSpace(r[|r| - 1]))
  {
    TrimEnd(TrimStart(s))
  }

  /** update({ refill_date }) on the patient's rows for the drug; nothing else changes. */
  function SetRefillDate(t: Table<string, DrugSnapshot>, user: string, drugId: string, date: string)
    : (r: Table<string, DrugSnapshot>)
    ensures |r| == |t|
    ensures forall i :: 0 <= i < |t| ==>
              r[i] == if t[i].userId == user && t[i].key == drugId
                      then t[i].(data := t[i].data.(refillDate := Some(date))) else t[i]
  {
    if t == [] then []
    else [if t[0].userId == user && t[0].key == drugId then t[0].(data := t[0].data.(refillDate := Some(date))) else t[0]]
         + SetRefillDate(t[1..], user, drugId, date)
  }

  // ---------------------------------------------------------------------
  // Handlers

  /** handleAddProvider: replace the patient's provider; the state follows only when the insert succeeds. */
  function AddProvider(s: DetailsState, providerId: string, ok: bool): (r: DetailsState)
    ensures r.user == s.user && r.drugs == s.drugs && r.clinicProviders == s.clinicProviders
    ensures r.userClinics == s.userClinics && r.patientDrugs == s.patientDrugs && r.userDrug == s.userDrug
  {
    if s.user.None? then s
    else
      var u := s.user.value;
      var cleared := DeleteFor(s.userProviders, u);
      if !ok then s.(userProviders := cleared)
      else s.(userProviders := cleared + [Row(u, providerId, ())], userProvider := Some(providerId))
  }

  /**
   * handleAddClinic: replace the patient's clinic; then the first provider
   * linked to the clinic, if any, becomes the patient's provider.
   */
  function AddClinic(s: DetailsState, clinicId: string, ok: bool, providerOk: bool): (r: DetailsState)
    ensures r.user == s.user && r.drugs == s.drugs && r.clinicProviders == s.clinicProviders
    ensures r.patientDrugs == s.patientDrugs && r.userDrug == s.userDrug
  {
    if s.user.None? then s
    else
      var u := s.user.value;
      var cleared := DeleteFor(s.userClinics, u);
      if !ok then s.(userClinics := cleared)
      else
        var s1 := s.(userClinics := cleared + [Row(u, clinicId, ())], userClinic := Some(clinicId));
        var linked := FirstLinkedProvider(s.clinicProviders, clinicId);
        if Present(linked) then AddProvider(s1, linked.value, providerOk) else s1
  }

  /** handleRemoveClinic: delete the patient's row for the selected clinic and clear the selection. */
  function RemoveClinic(s: DetailsState, ok: bool): (r: DetailsState)
    ensures r.user == s.user && r.drugs == s.drugs && r.clinicProviders == s.clinicProviders
    ensures r.userProviders == s.userProviders && r.patientDrugs == s.patientDrugs && r.userProvider == s.userProvider
  {
    if s.user.None? || !Present(s.userClinic) || !ok then s
    else s.(userClinics := DeleteKey(s.userClinics, s.user.value, s.userClinic.value), userClinic := None)
  }

  /** handleRemoveProvider: delete the patient's row for the selected provider and clear the selection. */
  function RemoveProvider(s: DetailsState, ok: bool): (r: DetailsState)
    ensures r.user == s.user && r.drugs == s.drugs && r.clinicProviders == s.clinicProviders
    ensures r.userClinics == s.userClinics && r.patientDrugs == s.patientDrugs && r.userClinic == s.userClinic
  {
    if s.user.None? || !Present(s.userProvider) || !ok then s
    else s.(userProviders := DeleteKey(s.userProviders, s.user.value, s.userProvider.value), userProvider := None)
  }

  /**
   * handleAddDrug, looking the drug up in `catalog`: delete the patient's drug
   * row; if the drug is in the catalog, insert a row with its prices and the
   * entered refill date (null when empty) and select it.
   */
  function AddDrugWith(s: DetailsState, catalog: seq<Drug>, drugId: string, ok: bool): (r: DetailsState)
    ensures r.user == s.user && r.drugs == s.drugs && r.clinicProviders == s.clinicProviders
    ensures r.userClinics == s.userClinics && r.userProviders == s.userProviders && r.refillDate == s.refillDate
    ensures r.userDrug != s.userDrug ==> r.userDrug == Some(drugId) && FindDrug(catalog, drugId).Some?
  {
    if s.user.None? then s
    else
      var u := s.user.value;
      var cleared := DeleteFor(s.patientDrugs, u);
      match FindDrug(catalog, drugId)
      case None => s.(patientDrugs := cleared)
      case Some(d) =>
        if !ok then s.(patientDrugs := cleared)
        else
          var snapshot := DrugSnapshot(d.weeklyPrice, d.monthlyPrice, d.yearlyPrice,
                                       if s.refillDate == "" then None else Some(s.refillDate));
          s.(patientDrugs := cleared + [Row(u, d.id, snapshot)], userDrug := Some(drugId))
  }

  /** handleAddDrug as the drug list calls it: the page's own catalog. */
  function AddDrug(s: DetailsState, drugId: string, ok: bool): (r: DetailsState)
    ensures r.user == s.user && r.drugs == s.drugs && r.clinicProviders == s.clinicProviders
    ensures r.userClinics == s.userClinics && r.userProviders == s.userProviders && r.refillDate == s.refillDate
    ensures r.userDrug != s.userDrug ==> r.userDrug == Some(drugId) && FindDrug(s.drugs, drugId).Some?
  {
    AddDrugWith(s, s.drugs, drugId, ok)
  }

  /** handleRemoveDrug: delete the patient's row for the selected drug; clear the selection and the date. */
  function RemoveDrug(s: DetailsState, ok: bool): (r: DetailsState)
    ensures r.user == s.user && r.drugs == s.drugs && r.clinicProviders == s.clinicProviders
    ensures r.userClinics == s.userClinics && r.userProviders == s.userProviders
    ensures forall i :: 0 <= i < |r.patientDrugs| ==> r.patientDrugs[i] in s.patientDrugs
  {
    if s.user.None? || !Present(s.userDrug) || !ok then s
    else s.(patientDrugs := DeleteKey(s.patientDrugs, s.user.value, s.userDrug.value),
            userDrug := None, refillDate := "")
  }

  /** handleUpdateRefillDate: write the entered date on the selected drug's row. */
  function UpdateRefillDate(s: DetailsState, ok: bool): (r: DetailsState)
    ensures r.user == s.user && r.drugs == s.drugs && r.clinicProviders == s.clinicProviders
    ensures r.userClinics == s.userClinics && r.userProviders == s.userProviders && r.userDrug == s.userDrug
    ensures |r.patientDrugs| == |s.patientDrugs|
  {
    if s.user.None? || !Present(s.userDrug) || s.refillDate == "" || !ok then s
    else s.(patientDrugs := SetRefillDate(s.patientDrugs, s.user.value, s.userDrug.value, s.refillDate))
  }

  /** The catalog drug handleCreateDrug inserts: the trimmed name, every price 0, the id the store assigns. */
  function NewCatalogDrug(newId: string, name: string): (d: Drug)
    ensures d.id == newId && d.weeklyPrice == 0.0 && d.monthlyPrice == 0.0 && d.yearlyPrice == 0.0
    ensures d.name != [] <==> exists i :: 0 <= i < |name| && !IsSpace(name[i])
  {
    TrimEmptyIffBlank(name);
    Drug(newId, Trim(name), 0.0, 0.0, 0.0)
  }

  /**
   * handleCreateDrug as written: after adding the new drug to the catalog it
   * calls handleAddDrug, whose catalog is the one from before the insert.
   */
  function CreateDrugAsWritten(s: DetailsState, newId: string, insertOk: bool, addOk: bool): (r: DetailsState)
    ensures r.user == s.user && r.clinicProviders == s.clinicProviders
    ensures r.userClinics == s.userClinics && r.userProviders == s.userProviders
    ensures Trim(s.newDrugName) == "" ==> r == s
    ensures r.drugs == s.drugs || (r.drugs == s.drugs + [NewCatalogDrug(newId, s.newDrugName)] && r.newDrugName == "")
  {
    if s.user.None? || Trim(s.newDrugName) == "" || !insertOk then s
    else
      var s1 := s.(drugs := s.drugs + [NewCatalogDrug(newId, s.newDrugName)]);
      AddDrugWith(s1, s.drugs, newId, addOk).(newDrugName := "", showDrugInput := false)
  }

  /** handleCreateDrug as intended: the new drug is looked up in the catalog that holds it. */
  function CreateDrug(s: DetailsState, newId: string, insertOk: bool, addOk: bool): (r: DetailsState)
    ensures r.user == s.user && r.clinicProviders == s.clinicProviders
    ensures r.userClinics == s.userClinics && r.userProviders == s.userProviders
    ensures Trim(s.newDrugName) == "" ==> r == s
    ensures r.drugs == s.drugs || (r.drugs == s.drugs + [NewCatalogDrug(newId, s.newDrugName)] && r.newDrugName == "")
  {
    if s.user.None? || Trim(s.newDrugName) == "" || !insertOk then s
    else
      var s1 := s.(drugs := s.drugs + [NewCatalogDrug(newId, s.newDrugName)]);
      AddDrug(s1, newId, addOk).(newDrugName := "", showDrugInput := false)
  }

  // ---------------------------------------------------------------------
  // Lemmas

  /** A name trims to the empty string exactly when every character of it is whitespace. */
  lemma TrimEmptyIffBlank(s: string)
    ensures Trim(s) == "" <==> forall i :: 0 <= i < |s| ==> IsSpace(s[i])
  {
    var t := TrimStart(s);
    assert t != [] ==> t[0] == s[|s| - |t|];
  }

  /** A catalog found in order: the first drug with the id. */
  lemma {:induction false} FindDrugAppend(drugs: seq<Drug>, d: Drug)
    requires forall e :: e in drugs ==> e.id != d.id
    ensures FindDrug(drugs + [d], d.id) == Some(d)
    decreases |drugs|
  {
    if drugs == [] {
      assert drugs + [d] == [d];
    } else {
      assert (drugs + [d])[0] == drugs[0];
      assert (drugs + [d])[1..] == drugs[1..] + [d];
      assert drugs[0] in drugs;
      FindDrugAppend(drugs[1..], d);
    }
  }

  /**
   * Choosing a catalog drug leaves the patient exactly one drug row, with that
   * drug's prices and the entered refill date (null when empty), selects it,
   * and leaves every other patient's rows alone.
   */
  lemma AddDrugReplacesRow(s: DetailsState, drugId: string, d: Drug, other: string)
    requires s.user.Some? && FindDrug(s.drugs, drugId) == Some(d)
    ensures var s' := AddDrug(s, drugId, true);
            var u := s.user.value;
            RowsFor(s'.patientDrugs, u) ==
              [Row(u, drugId, DrugSnapshot(d.weeklyPrice, d.monthlyPrice, d.yearlyPrice,
                                           if s.refillDate == "" then None else Some(s.refillDate)))] &&
            s'.userDrug == Some(drugId) &&
            (other != u ==> RowsFor(s'.patientDrugs, other) == RowsFor(s.patientDrugs, other))
  {
    var u := s.user.value;
    var snapshot := DrugSnapshot(d.weeklyPrice, d.monthlyPrice, d.yearlyPrice,
                                 if s.refillDate == "" then None else Some(s.refillDate));
    Replace(s.patientDrugs, Row(u, d.id, snapshot), other);
  }

  /** An id that is not in the catalog still deletes the patient's drug row, and inserts and selects nothing. */
  lemma AddUnknownDrugDeletesRow(s: DetailsState, drugId: string, ok: bool, other: string)
    requires s.user.Some? && forall d :: d in s.drugs ==> d.id != drugId
    ensures var s' := AddDrug(s, drugId, ok);
            RowsFor(s'.patientDrugs, s.user.value) == [] &&
            s'.userDrug == s.userDrug &&
            (other != s.user.value ==> RowsFor(s'.patientDrugs, other) == RowsFor(s.patientDrugs, other))
  {
    RowsForDeleteFor(s.patientDrugs, s.user.value, other);
  }

  /**
   * Removing the drug does nothing without a selection; otherwise it deletes
   * only the patient's row for the selected drug and clears the selection and
   * the date.
   */
  lemma RemoveDrugEffect(s: DetailsState, other: string)
    ensures var s' := RemoveDrug(s, true);
            (s.user.None? || !Present(s.userDrug) ==> s' == s) &&
            (s.user.Some? && Present(s.userDrug) ==>
               s'.userDrug.None? && s'.refillDate == "" &&
               (forall i :: 0 <= i < |s'.patientDrugs| ==>
                  s'.patientDrugs[i] in s.patientDrugs &&
                  !(s'.patientDrugs[i].userId == s.user.value && s'.patientDrugs[i].key == s.userDrug.value)) &&
               (forall i ::
                  (0 <= i < |s.patientDrugs| &&
                   !(s.patientDrugs[i].userId == s.user.value && s.patientDrugs[i].key == s.userDrug.value)) ==>
                  s.patientDrugs[i] in s'.patientDrugs) &&
               (other != s.user.value ==> RowsFor(s'.patientDrugs, other) == RowsFor(s.patientDrugs, other)))
  {
    if s.user.Some? && Present(s.userDrug) {
      RowsForDeleteKey(s.patientDrugs, s.user.value, s.userDrug.value, other);
    }
  }

  /**
   * Updating the refill date does nothing without a selected drug or a date;
   * otherwise only the refill date of the patient's row for that drug changes.
   */
  lemma UpdateRefillDateEffect(s: DetailsState)
    ensures var s' := UpdateRefillDate(s, true);
            (s.user.None? || !Present(s.userDrug) || s.refillDate == "" ==> s' == s) &&
            s'.(patientDrugs := s.patientDrugs) == s &&
            |s'.patientDrugs| == |s.patientDrugs| &&
            forall i :: 0 <= i < |s.patientDrugs| ==>
              var (old_, new_) := (s.patientDrugs[i], s'.patientDrugs[i]);
              new_.userId == old_.userId && new_.key == old_.key &&
              new_.data.(refillDate := old_.data.refillDate) == old_.data &&
              (new_ != old_ ==> new_.userId == s.user.value && new_.key == s.userDrug.value &&
                                new_.data.refillDate == Some(s.refillDate))
  {
  }

  /**
   * Choosing a clinic leaves the patient exactly that clinic; when the clinic
   * has a linked provider, that provider becomes the patient's only provider.
   */
  lemma AddClinicEffect(s: DetailsState, clinicId: string, other: string)
    requires s.user.Some?
    ensures var s' := AddClinic(s, clinicId, true, true);
            var u := s.user.value;
            var linked := FirstLinkedProvider(s.clinicProviders, clinicId);
            RowsFor(s'.userClinics, u) == [Row(u, clinicId, ())] && s'.userClinic == Some(clinicId) &&
            (Present(linked) ==>
               RowsFor(s'.userProviders, u) == [Row(u, linked.value, ())] && s'.userProvider == linked &&
               ClinicProvider(clinicId, linked.value) in s.clinicProviders) &&
            (!Present(linked) ==> s'.userProviders == s.userProviders && s'.userProvider == s.userProvider) &&
            (other != u ==> RowsFor(s'.userClinics, other) == RowsFor(s.userClinics, other) &&
                            RowsFor(s'.userProviders, other) == RowsFor(s.userProviders, other))
  {
    var u := s.user.value;
    Replace(s.userClinics, Row(u, clinicId, ()), u);
    Replace(s.userClinics, Row(u, clinicId, ()), other);
    var linked := FirstLinkedProvider(s.clinicProviders, clinicId);
    if Present(linked) {
      Replace(s.userProviders, Row(u, linked.value, ()), u);
      Replace(s.userProviders, Row(u, linked.value, ()), other);
    }
  }

  /** Choosing a provider leaves the patient exactly that provider. */
  lemma AddProviderEffect(s: DetailsState, providerId: string, other: string)
    requires s.user.Some?
    ensures var s' := AddProvider(s, providerId, true);
            RowsFor(s'.userProviders, s.user.value) == [Row(s.user.value, providerId, ())] &&
            s'.userProvider == Some(providerId) &&
            (other != s.user.value ==> RowsFor(s'.userProviders, other) == RowsFor(s.userProviders, other))
  {
    Replace(s.userProviders, Row(s.user.value, providerId, ()), other);
  }

  /** Removing a clinic or a provider does nothing without a selection, and otherwise clears it. */
  lemma RemoveClinicProviderEffect(s: DetailsState)
    ensures var s' := RemoveClinic(s, true);
            (s.user.None? || !Present(s.userClinic) ==> s' == s) &&
            (s.user.Some? && Present(s.userClinic) ==>
               s'.userClinic.None? &&
               s'.userClinics == DeleteKey(s.userClinics, s.user.value, s.userClinic.value) &&
               s'.(userClinics := s.userClinics, userClinic := s.userClinic) == s)
    ensures var s' := RemoveProvider(s, true);
            (s.user.None? || !Present(s.userProvider) ==> s' == s) &&
            (s.user.Some? && Present(s.userProvider) ==>
               s'.userProvider.None? &&
               s'.userProviders == DeleteKey(s.userProviders, s.user.value, s.userProvider.value) &&
               s'.(userProviders := s.userProviders, userProvider := s.userProvider) == s)
  {
  }

  /** Every handler keeps each link table at one row per patient. */
  lemma HandlersKeepValid(s: DetailsState, id: string, newId: string, ok: bool, ok2: bool)
    requires Valid(s)
    ensures Valid(AddClinic(s, id, ok, ok2))
    ensures Valid(AddProvider(s, id, ok))
    ensures Valid(RemoveClinic(s, ok))
    ensures Valid(RemoveProvider(s, ok))
    ensures Valid(AddDrug(s, id, ok))
    ensures Valid(RemoveDrug(s, ok))
    ensures Valid(UpdateRefillDate(s, ok))
    ensures Valid(CreateDrug(s, newId, ok, ok2))
    ensures Valid(CreateDrugAsWritten(s, newId, ok, ok2))
  {
    AddClinicKeepsValid(s, id, ok, ok2);
    AddProviderKeepsValid(s, id, ok);
    RemovalsKeepValid(s, ok);
    AddDrugKeepsValid(s, s.drugs, id, ok);
    if s.user.Some? && Trim(s.newDrugName) != "" && ok {
      var s1 := s.(drugs := s.drugs + [NewCatalogDrug(newId, s.newDrugName)]);
      AddDrugKeepsValid(s1, s1.drugs, newId, ok2);
      AddDrugKeepsValid(s1, s.drugs, newId, ok2);
    }
  }

  lemma AddClinicKeepsValid(s: DetailsState, clinicId: string, ok: bool, providerOk: bool)
    requires Valid(s)
    ensures Valid(AddClinic(s, clinicId, ok, providerOk))
  {
    if s.user.Some? {
      var u := s.user.value;
      DeleteKeepsAtMostOne(s.userClinics, u, clinicId);
      ReplaceKeepsAtMostOne(s.userClinics, Row(u, clinicId, ()));
      var linked := FirstLinkedProvider(s.clinicProviders, clinicId);
      if ok && Present(linked) {
        var s1 := s.(userClinics := DeleteFor(s.userClinics, u) + [Row(u, clinicId, ())], userClinic := Some(clinicId));
        AddProviderKeepsValid(s1, linked.value, providerOk);
      }
    }
  }

  lemma RemovalsKeepValid(s: DetailsState, ok: bool)
    requires Valid(s)
    ensures Valid(RemoveClinic(s, ok)) && Valid(RemoveProvider(s, ok))
    ensures Valid(RemoveDrug(s, ok)) && Valid(UpdateRefillDate(s, ok))
  {
    if s.user.Some? {
      var u := s.user.value;
      if Present(s.userClinic) {
        DeleteKeepsAtMostOne(s.userClinics, u, s.userClinic.value);
      }
      if Present(s.userProvider) {
        DeleteKeepsAtMostOne(s.userProviders, u, s.userProvider.value);
      }
      if Present(s.userDrug) {
        DeleteKeepsAtMostOne(s.patientDrugs, u, s.userDrug.value);
        SetRefillDateKeepsAtMostOne(s.patientDrugs, u, s.userDrug.value, s.refillDate);
      }
    }
  }

  lemma AddProviderKeepsValid(s: DetailsState, providerId: string, ok: bool)
    requires Valid(s)
    ensures Valid(AddProvider(s, providerId, ok))
  {
    if s.user.Some? {
      DeleteKeepsAtMostOne(s.userProviders, s.user.value, providerId);
      ReplaceKeepsAtMostOne(s.userProviders, Row(s.user.value, providerId, ()));
    }
  }

  lemma AddDrugKeepsValid(s: DetailsState, catalog: seq<Drug>, drugId: string, ok: bool)
    requires Valid(s)
    ensures Valid(AddDrugWith(s, catalog, drugId, ok))
  {
    if s.user.Some? {
      var u := s.user.value;
      DeleteKeepsAtMostOne(s.patientDrugs, u, drugId);
      var found := FindDrug(catalog, drugId);
      if found.Some? {
        var d := found.value;
        var snapshot := DrugSnapshot(d.weeklyPrice, d.monthlyPrice, d.yearlyPrice,
                                     if s.refillDate == "" then None else Some(s.refillDate));
        ReplaceKeepsAtMostOne(s.patientDrugs, Row(u, d.id, snapshot));
      }
    }
  }

  /** Writing a refill date changes no row's owner, so one row per patient stays one. */
  lemma {:induction false} SetRefillDateRows(t: Table<string, DrugSnapshot>, user: string, drugId: string,
                                             date: string, who: string)
    ensures |RowsFor(SetRefillDate(t, user, drugId, date), who)| == |RowsFor(t, who)|
    decreases |t|
  {
    if t != [] {
      var r := SetRefillDate(t, user, drugId, date);
      assert r[1..] == SetRefillDate(t[1..], user, drugId, date);
      SetRefillDateRows(t[1..], user, drugId, date, who);
      RowsForAppend([r[0]], r[1..], who);
      RowsForAppend([t[0]], t[1..], who);
      assert r == [r[0]] + r[1..];
      assert t == [t[0]] + t[1..];
    }
  }

  lemma SetRefillDateKeepsAtMostOne(t: Table<string, DrugSnapshot>, user: string, drugId: string, date: string)
    requires AtMostOnePerUser(t)
    ensures AtMostOnePerUser(SetRefillDate(t, user, drugId, date))
  {
    forall who ensures |RowsFor(SetRefillDate(t, user, drugId, date), who)| <= 1 {
      SetRefillDateRows(t, user, drugId, date, who);
    }
  }

  /**
   * As written, creating a drug that is not yet in the catalog adds it to the
   * catalog but then finds it missing: the patient's drug row is deleted and
   * nothing is inserted or selected.
   */
  lemma CreateDrugLosesSelection(s: DetailsState, newId: string, addOk: bool)
    requires s.user.Some? && Trim(s.newDrugName) != ""
    requires forall d :: d in s.drugs ==> d.id != newId
    ensures var s' := CreateDrugAsWritten(s, newId, true, addOk);
            NewCatalogDrug(newId, s.newDrugName) in s'.drugs &&
            RowsFor(s'.patientDrugs, s.user.value) == [] &&
            s'.userDrug == s.userDrug
  {
    RowsForDeleteFor(s.patientDrugs, s.user.value, s.user.value);
  }

  /**
   * As intended, a created drug is in the catalog with every price 0 and is
   * the patient's drug at once: their only drug row, with zero prices.
   */
  lemma CreateDrugSelectsIt(s: DetailsState, newId: string)
    requires s.user.Some? && Trim(s.newDrugName) != ""
    requires forall d :: d in s.drugs ==> d.id != newId
    ensures var s' := CreateDrug(s, newId, true, true);
            var u := s.user.value;
            NewCatalogDrug(newId, s.newDrugName) in s'.drugs &&
            RowsFor(s'.patientDrugs, u) ==
              [Row(u, newId, DrugSnapshot(0.0, 0.0, 0.0, if s.refillDate == "" then None else Some(s.refillDate)))] &&
            s'.userDrug == Some(newId) && s'.newDrugName == "" && !s'.showDrugInput
  {
    var d := NewCatalogDrug(newId, s.newDrugName);
    var s1 := s.(drugs := s.drugs + [d]);
    FindDrugAppend(s.drugs, d);
    AddDrugReplacesRow(s1, newId, d, s.user.value);
  }

  // ---------------------------------------------------------------------
  // The page component

  class DetailsPage {
    var user: Option<string>
    var drugs: seq<Drug>
    var clinicProviders: seq<ClinicProvider>
    var userClinics: Table<string, ()>
    var userProviders: Table<string, ()>
    var patientDrugs: Table<string, DrugSnapshot>
    var userClinic: Option<string>
    var userProvider: Option<string>
    var userDrug: Option<string>
    var refillDate: string
    var newDrugName: string
    var showDrugInput: bool

    function State(): DetailsState
      reads this
    {
      DetailsState(user, drugs, clinicProviders, userClinics, userProviders, patientDrugs,
                   userClinic, userProvider, userDrug, refillDate, newDrugName, showDrugInput)
    }

    ghost predicate Inv()
      reads this
    {
      Valid(State())
    }

    /**
     * The page after loadData: the catalog, the link tables and the patient's
     * selections as loaded, with the new-drug input empty and closed.
     */
    constructor (user: Option<string>, drugs: seq<Drug>, clinicProviders: seq<ClinicProvider>,
                 userClinics: Table<string, ()>, userProviders: Table<string, ()>,
                 patientDrugs: Table<string, DrugSnapshot>,
                 userClinic: Option<string>, userProvider: Option<string>, userDrug: Option<string>,
                 refillDate: string)
      requires AtMostOnePerUser(userClinics) && AtMostOnePerUser(userProviders) && AtMostOnePerUser(patientDrugs)
      ensures State() == DetailsState(user, drugs, clinicProviders, userClinics, userProviders, patientDrugs,
                                      userClinic, userProvider, userDrug, refillDate, "", false)
      ensures Inv()
    {
      this.user := user;
      this.drugs := drugs;
      this.clinicProviders := clinicProviders;
      this.userClinics := userClinics;
      this.userProviders := userProviders;
      this.patientDrugs := patientDrugs;
      this.userClinic := userClinic;
      this.userProvider := userProvider;
      this.userDrug := userDrug;
      this.refillDate := refillDate;
      newDrugName := "";
      showDrugInput := false;
    }

    method HandleAddProvider(providerId: string, ok: bool)
      requires Inv()
      modifies this
      ensures Inv()
      ensures State() == AddProvider(old(State()), providerId, ok)
    {
      AddProviderKeepsValid(State(), providerId, ok);
      if user.None? {
        return;
      }
      userProviders := DeleteFor(userProviders, user.value);
      if !ok {
        return;
      }
      userProviders := userProviders + [Row(user.value, providerId, ())];
      userProvider := Some(providerId);
    }

    method HandleAddClinic(clinicId: string, ok: bool, providerOk: bool)
      requires Inv()
      modifies this
      ensures Inv()
      ensures State() == AddClinic(old(State()), clinicId, ok, providerOk)
    {
      AddClinicKeepsValid(State(), clinicId, ok, providerOk);
      if user.None? {
        return;
      }
      userClinics := DeleteFor(userClinics, user.value);
      if !ok {
        return;
      }
      userClinics := userClinics + [Row(user.value, clinicId, ())];
      userClinic := Some(clinicId);
      var linked := FirstLinkedProvider(clinicProviders, clinicId);
      if linked.Some? && linked.value != "" {
        HandleAddProvider(linked.value, providerOk);
      }
    }

    method HandleRemoveClinic(ok: bool)
      requires Inv()
      modifies this
      ensures Inv()
      ensures State() == RemoveClinic(old(State()), ok)
    {
      RemovalsKeepValid(State(), ok);
      if user.None? || userClinic.None? || userClinic.value == "" {
        return;
      }
      if !ok {
        return;
      }
      userClinics := DeleteKey(userClinics, user.value, userClinic.value);
      userClinic := None;
    }

    method HandleRemoveProvider(ok: bool)
      requires Inv()
      modifies this
      ensures Inv()
      ensures State() == RemoveProvider(old(State()), ok)
    {
      RemovalsKeepValid(State(), ok);
      if user.None? || userProvider.None? || userProvider.value == "" {
        return;
      }
      if !ok {
        return;
      }
      userProviders := DeleteKey(userProviders, user.value, userProvider.value);
      userProvider := None;
    }

    /** handleAddDrug; `catalog` is the drug list the handler was created with. */
    method HandleAddDrugWith(catalog: seq<Drug>, drugId: string, ok: bool)
      requires Inv()
      modifies this
      ensures Inv()
      ensures State() == AddDrugWith(old(State()), catalog, drugId, ok)
    {
      AddDrugKeepsValid(State(), catalog, drugId, ok);
      if user.None? {
        return;
      }
      patientDrugs := DeleteFor(patientDrugs, user.value);
      var selected := FindDrug(catalog, drugId);
      if selected.None? || !ok {
        return;
      }
      var d := selected.value;
      var date := if refillDate == "" then None else Some(refillDate);
      patientDrugs := patientDrugs + [Row(user.value, d.id, DrugSnapshot(d.weeklyPrice, d.monthlyPrice, d.yearlyPrice, date))];
      userDrug := Some(drugId);
    }

    method HandleRemoveDrug(ok: bool)
      requires Inv()
      modifies this
      ensures Inv()
      ensures State() == RemoveDrug(old(State()), ok)
    {
      RemovalsKeepValid(State(), ok);
      if user.None? || userDrug.None? || userDrug.value == "" || !ok {
        return;
      }
      patientDrugs := DeleteKey(patientDrugs, user.value, userDrug.value);
      userDrug := None;
      refillDate := "";
    }

    method HandleUpdateRefillDate(ok: bool)
      requires Inv()
      modifies this
      ensures Inv()
      ensures State() == UpdateRefillDate(old(State()), ok)
    {
      RemovalsKeepValid(State(), ok);
      if user.None? || userDrug.None? || userDrug.value == "" || refillDate == "" {
        return;
      }
      if !ok {
        return;
      }
      patientDrugs := SetRefillDate(patientDrugs, user.value, userDrug.value, refillDate);
    }

    /** handleCreateDrug with the new drug looked up in the catalog that holds it. */
    method HandleCreateDrug(newId: string, insertOk: bool, addOk: bool)
      requires Inv()
      modifies this
      ensures Inv()
      ensures State() == CreateDrug(old(State()), newId, insertOk, addOk)
    {
      if user.None? || Trim(newDrugName) == "" || !insertOk {
        return;
      }
      drugs := drugs + [NewCatalogDrug(newId, newDrugName)];
      HandleAddDrugWith(drugs, newId, addOk);
      newDrugName := "";
      showDrugInput := false;
    }
  }
}

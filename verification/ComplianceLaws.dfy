/** When each command on documents and on versions of the Statement of Applicability commits and what it writes, told by
    the fields of the tables (apps/api/src/modules/compliance/compliance.service.ts). */
module ComplianceLaws {
  import opened AnnexA
  import opened Common
  import opened Decimal
  import D = Documents
  import S = Soa
  import Text

  /** One of "A.5.1" to "A.5.37", "A.6.1" to "A.6.8", "A.7.1" to "A.7.14" and "A.8.1" to "A.8.34". */
  predicate AnnexCode(code: string) {
    exists number | 1 <= number <= 37 ::
      || code == "A.5." + Numeral(number)
      || (number <= 8 && code == "A.6." + Numeral(number))
      || (number <= 14 && code == "A.7." + Numeral(number))
      || (number <= 34 && code == "A.8." + Numeral(number))
  }

  lemma CodeIs(theme: nat, number: nat)
    requires 5 <= theme <= 8
    ensures Code(theme, number) ==
      (if theme == 5 then "A.5." else if theme == 6 then "A.6." else if theme == 7 then "A.7." else "A.8.")
      + Numeral(number)
  {
    assert Numeral(theme) == [DigitChar(theme)];
    hide Numeral;
    assert "A." + [DigitChar(theme)] + "." ==
      if theme == 5 then "A.5." else if theme == 6 then "A.6." else if theme == 7 then "A.7." else "A.8.";
  }

  lemma CataloguedMeans(code: string)
    ensures IsAnnexControlCode(code) <==> AnnexCode(code)
  {
    hide Numeral, Code;
    CodeAt(0);
    if IsAnnexControlCode(code) {
      var i :| 0 <= i < 93 && ANNEX_CONTROLS[i] == code;
      CodeAt(i);
      CodeIs(ThemeAt(i), NumberAt(i));
    }
    if number :| 1 <= number <= 37 && code == "A.5." + Numeral(number) {
      CodeAt(number - 1);
      CodeIs(5, number);
    }
    if number :| 1 <= number <= 8 && code == "A.6." + Numeral(number) {
      CodeAt(number + 36);
      CodeIs(6, number);
    }
    if number :| 1 <= number <= 14 && code == "A.7." + Numeral(number) {
      CodeAt(number + 44);
      CodeIs(7, number);
    }
    if number :| 1 <= number <= 34 && code == "A.8." + Numeral(number) {
      CodeAt(number + 58);
      CodeIs(8, number);
    }
  }

  // ---------------------------------------------------------------------------------------------
  // Documents
  // ---------------------------------------------------------------------------------------------

  /** Every document but one stays as it was. */
  predicate OnlyDoc(before: D.Db, after: D.Db, id: D.DocId) {
    && after.docs.Keys == before.docs.Keys + {id} && after.files == before.files
    && forall other | other in before.docs && other != id :: after.docs[other] == before.docs[other]
  }

  /** A new document is a draft under its upper-cased code, which no other has, and names a document that nothing
      replaces yet. */
  lemma CreatedDocument(db: D.Db, id: D.DocId, code: string, controls: set<string>, supersedes: Option<D.DocId>,
                        details: string)
    requires id !in db.docs
    ensures D.Enabled(db, D.Create(id, code, controls, supersedes, details)) <==>
      && (forall control | control in controls :: AnnexCode(control))
      && (forall other | other in db.docs :: db.docs[other].code != Text.Upper(Text.Trim(code)))
      && (supersedes.Some? ==> supersedes.value in db.docs)
      && (supersedes.Some? ==> forall other | other in db.docs :: db.docs[other].supersedes != supersedes)
    ensures D.Enabled(db, D.Create(id, code, controls, supersedes, details)) ==>
      var after := D.Perform(db, D.Create(id, code, controls, supersedes, details));
      && OnlyDoc(db, after, id) && after.next == db.next + 1
      && after.docs[id] == D.Doc(Text.Upper(Text.Trim(code)), D.Draft, supersedes, controls, details, db.next)
  {
    hide AnnexCode, IsAnnexControlCode, Text.Upper, Text.Trim;
    forall control ensures IsAnnexControlCode(control) <==> AnnexCode(control) {
      CataloguedMeans(control);
    }
  }

  /** Only drafts and documents in force are edited. */
  lemma UpdatedDocument(db: D.Db, id: D.DocId, controls: set<string>, details: string)
    requires id in db.docs
    ensures D.Enabled(db, D.Update(id, controls, details)) <==>
      && (db.docs[id].status == D.Draft || db.docs[id].status == D.Issued)
      && forall control | control in controls :: AnnexCode(control)
    ensures D.Enabled(db, D.Update(id, controls, details)) ==>
      var before, after := db.docs[id], D.Perform(db, D.Update(id, controls, details));
      && OnlyDoc(db, after, id) && after.next == db.next
      && after.docs[id] ==
         D.Doc(before.code, before.status, before.supersedes, controls, details, before.created)
  {
    hide AnnexCode, IsAnnexControlCode;
    OverMeans(db.docs[id].status);
    forall control ensures IsAnnexControlCode(control) <==> AnnexCode(control) {
      CataloguedMeans(control);
    }
  }

  lemma OverMeans(status: D.Status)
    ensures D.Over(status) <==> status != D.Draft && status != D.Issued
  {
    assert status.Draft? || status.Issued? || status.Superseded? || status.Withdrawn?;
  }

  /** A draft with a file comes into force, and the document it names is superseded, whatever its status was. */
  lemma IssuedDocument(db: D.Db, id: D.DocId)
    requires id in db.docs && (db.docs[id].supersedes.Some? ==> db.docs[id].supersedes.value in db.docs)
    requires db.docs[id].supersedes != Some(id)
    ensures D.Enabled(db, D.Issue(id)) <==>
      db.docs[id].status == D.Draft && exists file :: file in db.files && db.files[file] == id
    ensures D.Enabled(db, D.Issue(id)) ==>
      var after := D.Perform(db, D.Issue(id));
      && after.files == db.files && after.next == db.next && after.docs.Keys == db.docs.Keys
      && forall other | other in db.docs :: after.docs[other] == db.docs[other].(status :=
           if other == id then D.Issued else if db.docs[id].supersedes == Some(other) then D.Superseded
           else db.docs[other].status)
  {
  }

  lemma WithdrawnDocument(db: D.Db, id: D.DocId)
    requires id in db.docs
    ensures D.Enabled(db, D.Withdraw(id)) <==> db.docs[id].status != D.Withdrawn
    ensures D.Enabled(db, D.Withdraw(id)) ==>
      var after := D.Perform(db, D.Withdraw(id));
      && OnlyDoc(db, after, id) && after.next == db.next
      && after.docs[id] == db.docs[id].(status := D.Withdrawn)
  {
  }

  /** Files come to drafts and documents in force, and leave drafts only. */
  lemma FilesMean(db: D.Db, id: D.DocId, file: D.FileId)
    requires id in db.docs
    ensures file !in db.files ==>
      && (D.Enabled(db, D.AddFile(id, file)) <==> db.docs[id].status == D.Draft || db.docs[id].status == D.Issued)
      && (D.Enabled(db, D.AddFile(id, file)) ==>
            D.Perform(db, D.AddFile(id, file)) == db.(files := db.files[file := id]))
    ensures file in db.files && db.files[file] == id ==>
      && (D.Enabled(db, D.RemoveFile(file)) <==> db.docs[id].status == D.Draft)
      && (D.Enabled(db, D.RemoveFile(file)) ==>
            D.Perform(db, D.RemoveFile(file)) == db.(files := db.files - {file}))
  {
    OverMeans(db.docs[id].status);
  }

  // ---------------------------------------------------------------------------------------------
  // Versions of the Statement of Applicability
  // ---------------------------------------------------------------------------------------------

  /** A new version is a draft under its trimmed name, which no other has, with the entries of its source. */
  lemma CreatedVersion(db: S.Db, id: S.VersionId, name: string, cloneFrom: Option<S.VersionId>)
    requires id !in db
    ensures S.Enabled(db, S.Create(id, name, cloneFrom)) <==>
      && (forall other | other in db :: db[other].name != Text.Trim(name))
      && (cloneFrom == None || cloneFrom.value in db)
    ensures S.Enabled(db, S.Create(id, name, cloneFrom)) ==>
      var after := S.Perform(db, S.Create(id, name, cloneFrom));
      && after.Keys == db.Keys + {id} && (forall other | other in db :: after[other] == db[other])
      && after[id].name == Text.Trim(name) && after[id].status == S.Draft
      && after[id].entries == (if cloneFrom == None then map[] else db[cloneFrom.value].entries)
  {
    hide Text.Trim;
  }

  /** An entry is written for a control of the catalogue, into a draft. */
  lemma WrittenEntry(db: S.Db, id: S.VersionId, code: string, entry: S.Entry)
    requires id in db
    ensures S.Enabled(db, S.UpsertEntry(id, code, entry)) <==> AnnexCode(code) && db[id].status == S.Draft
    ensures S.Enabled(db, S.UpsertEntry(id, code, entry)) ==>
      S.Perform(db, S.UpsertEntry(id, code, entry)) ==
      db[id := S.Version(db[id].name, S.Draft, db[id].entries[code := entry])]
  {
    CataloguedMeans(code);
    hide AnnexCode, IsAnnexControlCode;
  }

  /** A draft with an entry for every control comes into force, and the one in force is superseded. */
  lemma IssuedVersion(db: S.Db, id: S.VersionId)
    requires id in db
    ensures S.Enabled(db, S.Issue(id)) <==>
      db[id].status == S.Draft && forall code | AnnexCode(code) :: code in db[id].entries
    ensures S.Enabled(db, S.Issue(id)) ==>
      var after := S.Perform(db, S.Issue(id));
      && after.Keys == db.Keys
      && forall other | other in db :: after[other] == db[other].(status :=
           if other == id then S.Issued else if db[other].status == S.Issued then S.Superseded else db[other].status)
  {
    hide AnnexCode, IsAnnexControlCode;
    forall code ensures IsAnnexControlCode(code) <==> AnnexCode(code) {
      CataloguedMeans(code);
    }
    assert forall code :: IsAnnexControlCode(code) <==> code in ANNEX_CONTROLS by {
      forall code ensures IsAnnexControlCode(code) <==> code in ANNEX_CONTROLS {
        CodeIsCatalogued(code);
      }
    }
  }

  lemma CodeIsCatalogued(code: string)
    ensures IsAnnexControlCode(code) <==> code in ANNEX_CONTROLS
  {
  }
}

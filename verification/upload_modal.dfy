/**
 * The upload dialog of client/src/components/Files/UploadModal.tsx: its form state, the guards
 * of its submit handler, and the record it sends for each selected file. The server's verdict
 * on each request is a parameter.
 */
module UploadModal {
  import opened Wrappers
  import opened Text
  import opened Lists
  import opened ClientTypes
  import opened FileUtils
  import RoleContext
  import Routes
  import Schema

  /** A file the user picked or dropped: its name and size in bytes. */
  datatype PickedFile = PickedFile(name: string, size: int)

  /** The form fields; `department` is `None` when preset from a user without one. */
  datatype FormData = FormData(department: Option<string>, category: string, description: string)

  /** The record sent for one file. */
  datatype FileData = FileData(
    filename: string,
    originalName: string,
    fileType: string,
    fileSize: int,
    filePath: string,
    uploadedBy: Option<int>,
    department: string,
    category: string,
    description: string)

  /** How a submit ended. */
  datatype SubmitOutcome = NoFilesSelected | MissingFields | AllUploaded | StoppedAt(index: nat)

  /**
   * `s.replace(/\s+/g, "_")`: every maximal run of whitespace becomes one underscore.
   * `inRun` says that the character before `s` was whitespace already replaced.
   */
  function ReplaceWhitespaceRuns(s: string, inRun: bool): string {
    if s == [] then []
    else if IsWhitespace(s[0]) then (if inRun then "" else "_") + ReplaceWhitespaceRuns(s[1..], true)
    else [s[0]] + ReplaceWhitespaceRuns(s[1..], false)
  }

  /** The stored name the client proposes: whitespace runs to "_", then lower case. */
  function ClientFilename(name: string): string {
    Lower(ReplaceWhitespaceRuns(name, false))
  }

  /** `fileData` for one file. */
  function FileDataOf(f: PickedFile, form: FormData, user: Option<User>): FileData {
    FileData(
      ClientFilename(f.name),
      f.name,
      LastSegment(f.name, '.'),
      f.size,
      "/uploads/" + f.name,
      if user.Some? then Some(user.value.id) else None,
      form.department.GetOr(""),
      form.category,
      form.description)
  }

  /** One record per selected file, in selection order. */
  function Uploads(files: seq<PickedFile>, form: FormData, user: Option<User>): seq<FileData> {
    seq(|files|, i requires 0 <= i < |files| => FileDataOf(files[i], form, user))
  }

  /** The requests awaited one after the other: all of them, or up to the first refused. */
  function ThroughFirstFailure(ds: seq<FileData>, accepted: FileData -> bool): seq<FileData> {
    if ds == [] then []
    else if accepted(ds[0]) then [ds[0]] + ThroughFirstFailure(ds[1..], accepted)
    else [ds[0]]
  }

  predicate Truthy(v: Option<string>) {
    v.Some? && v.value != ""
  }

  /** The replacement leaves no whitespace and never lengthens the name. */
  lemma {:induction false} ReplaceWhitespaceRunsSpec(s: string, inRun: bool)
    ensures NoWhitespace(ReplaceWhitespaceRuns(s, inRun))
    ensures |ReplaceWhitespaceRuns(s, inRun)| <= |s|
    ensures NoWhitespace(s) ==> ReplaceWhitespaceRuns(s, inRun) == s
  {
    if s != [] {
      ReplaceWhitespaceRunsSpec(s[1..], IsWhitespace(s[0]));
      var rest := ReplaceWhitespaceRuns(s[1..], IsWhitespace(s[0]));
      if IsWhitespace(s[0]) {
        var head: string := if inRun then "" else "_";
        assert !IsWhitespace('_');
        assert forall i :: 0 <= i < |head + rest| ==> (head + rest)[i] in head || (head + rest)[i] == rest[i - |head|];
      } else {
        assert forall i :: 0 < i < |[s[0]] + rest| ==> ([s[0]] + rest)[i] == rest[i - 1];
        assert NoWhitespace(s) ==> NoWhitespace(s[1..]) by {
          if NoWhitespace(s) {
            forall i | 0 <= i < |s[1..]| ensures !IsWhitespace(s[1..][i]) {
              assert s[1..][i] == s[i + 1];
            }
          }
        }
      }
    }
  }

  /** Lower-casing keeps a string free of whitespace. */
  lemma LowerKeepsNoWhitespace(s: string)
    requires NoWhitespace(s)
    ensures NoWhitespace(Lower(s))
  {
    forall i | 0 <= i < |s| ensures !IsWhitespace(Lower(s)[i]) {
      assert Lower(s)[i] == LowerChar(s[i]);
    }
  }

  /**
   * The proposed name has no whitespace, is lower case and is no longer than the original;
   * the type is the text after the last dot, case kept, so that the client's extension check
   * sees exactly "." + its lower-case form; the path is under "/uploads/".
   */
  lemma FileDataSpec(f: PickedFile, form: FormData, user: Option<User>)
    ensures var d := FileDataOf(f, form, user);
      && NoWhitespace(d.filename) && Lower(d.filename) == d.filename && |d.filename| <= |f.name|
      && '.' !in d.fileType
      && ClientExtension(f.name) == "." + Lower(d.fileType)
      && d.filePath == "/uploads/" + f.name
      && d.originalName == f.name && d.fileSize == f.size
      && (user.Some? ==> d.uploadedBy == Some(user.value.id))
  {
    ReplaceWhitespaceRunsSpec(f.name, false);
    LowerKeepsNoWhitespace(ReplaceWhitespaceRuns(f.name, false));
    LowerIdempotent(ReplaceWhitespaceRuns(f.name, false));
    LastSegmentFree(f.name, '.');
  }

  /** The awaited requests are always a prefix of the uploads. */
  lemma {:induction false} ThroughFirstFailurePrefix(ds: seq<FileData>, accepted: FileData -> bool)
    ensures ThroughFirstFailure(ds, accepted) <= ds
  {
    if ds != [] && accepted(ds[0]) {
      ThroughFirstFailurePrefix(ds[1..], accepted);
      assert ds == [ds[0]] + ds[1..];
    }
  }

  /** When every request is accepted, all of them are sent. */
  lemma {:induction false} ThroughFirstFailureAll(ds: seq<FileData>, accepted: FileData -> bool)
    requires forall i :: 0 <= i < |ds| ==> accepted(ds[i])
    ensures ThroughFirstFailure(ds, accepted) == ds
  {
    if ds != [] {
      assert forall i :: 0 <= i < |ds[1..]| ==> ds[1..][i] == ds[i + 1];
      ThroughFirstFailureAll(ds[1..], accepted);
      assert ds == [ds[0]] + ds[1..];
    }
  }

  /** Otherwise the requests sent are exactly those up to and including the first refused. */
  lemma {:induction false} ThroughFirstFailureStops(ds: seq<FileData>, accepted: FileData -> bool, k: nat)
    requires k < |ds| && !accepted(ds[k])
    requires forall j :: 0 <= j < k ==> accepted(ds[j])
    ensures ThroughFirstFailure(ds, accepted) == ds[..k + 1]
  {
    if k > 0 {
      var tail := ds[1..];
      assert tail[k - 1] == ds[k];
      assert forall j :: 0 <= j < k - 1 ==> tail[j] == ds[j + 1];
      ThroughFirstFailureStops(tail, accepted, k - 1);
      assert ds[..k + 1] == [ds[0]] + tail[..k];
    }
  }

  /** The dialog's state. */
  class UploadDialog {
    const user: Option<User>
    var selected: seq<PickedFile>
    var form: FormData
    /** The requests issued so far, in order. */
    var issued: seq<FileData>
    /** Set once an upload has succeeded: the success handler asks the parent to close. */
    var closeRequested: bool

    constructor (user: Option<User>)
      ensures this.user == user
      ensures selected == [] && form == FormData(Some(""), "", "") && issued == [] && !closeRequested
    {
      this.user := user;
      selected := [];
      form := FormData(Some(""), "", "");
      issued := [];
      closeRequested := false;
    }

    /** The dialog renders only for a user whose `isActive` is true. */
    predicate Visible()
    {
      RoleContext.CanUploadFiles(user)
    }

    /** The department selector is disabled for role "user". */
    predicate DepartmentLocked()
    {
      user.Some? && user.value.role == "user"
    }

    /** The effect run for a user: a plain user's department is preset to their own. */
    method ApplyUserDefaults()
      modifies this
      ensures DepartmentLocked() ==> form == old(form).(department := user.value.department)
      ensures !DepartmentLocked() ==> form == old(form)
      ensures selected == old(selected) && issued == old(issued) && closeRequested == old(closeRequested)
    {
      if user.Some? && user.value.role == "user" {
        form := form.(department := user.value.department);
      }
    }

    /** Picking or dropping files replaces the selection. */
    method SelectFiles(files: seq<PickedFile>)
      modifies this
      ensures selected == files
      ensures form == old(form) && issued == old(issued) && closeRequested == old(closeRequested)
    {
      selected := files;
    }

    /** Choosing a department; the disabled selector of a plain user cannot change it. */
    method SelectDepartment(value: string)
      modifies this
      ensures DepartmentLocked() ==> form == old(form)
      ensures !DepartmentLocked() ==> form == old(form).(department := Some(value))
      ensures selected == old(selected) && issued == old(issued) && closeRequested == old(closeRequested)
    {
      if !DepartmentLocked() {
        form := form.(department := Some(value));
      }
    }

    /** Typing in the category and description fields. */
    method EditFields(category: string, description: string)
      modifies this
      ensures form == old(form).(category := category, description := description)
      ensures selected == old(selected) && issued == old(issued) && closeRequested == old(closeRequested)
    {
      form := form.(category := category, description := description);
    }

    /**
     * `handleSubmit`: nothing is sent without a selection or without a department and a
     * category; otherwise one request per file, in order, each awaited, the first refused one
     * ending the loop.
     */
    method HandleSubmit(accepted: FileData -> bool) returns (outcome: SubmitOutcome)
      modifies this
      ensures selected == old(selected) && form == old(form)
      ensures |selected| == 0 ==>
        outcome == NoFilesSelected && issued == old(issued) && closeRequested == old(closeRequested)
      ensures |selected| > 0 && (!Truthy(form.department) || form.category == "") ==>
        outcome == MissingFields && issued == old(issued) && closeRequested == old(closeRequested)
      ensures |selected| > 0 && Truthy(form.department) && form.category != "" ==>
        && (outcome.AllUploaded? || outcome.StoppedAt?)
        && issued == old(issued) + ThroughFirstFailure(Uploads(selected, form, user), accepted)
        && closeRequested == (old(closeRequested) || accepted(FileDataOf(selected[0], form, user)))
      ensures outcome == AllUploaded ==> forall i :: 0 <= i < |selected| ==> accepted(FileDataOf(selected[i], form, user))
      ensures outcome.StoppedAt? ==> outcome.index < |selected| && !accepted(FileDataOf(selected[outcome.index], form, user))
    {
      if |selected| == 0 {
        return NoFilesSelected;
      }
      if !Truthy(form.department) || form.category == "" {
        return MissingFields;
      }
      var files, f := selected, form;
      var all := Uploads(files, f, user);
      var i := 0;
      while i < |files|
        invariant 0 <= i <= |files| == |all|
        invariant forall j :: 0 <= j < i ==> accepted(all[j])
        invariant issued == old(issued) + all[..i]
        invariant selected == files && form == f
        invariant closeRequested == (old(closeRequested) || (i > 0 && accepted(all[0])))
      {
        var data := FileDataOf(files[i], f, user);
        issued := issued + [data];
        if !accepted(data) {
          assert all[..i + 1] == all[..i] + [data];
          ThroughFirstFailureStops(all, accepted, i);
          assert all[0] == FileDataOf(files[0], f, user);
          return StoppedAt(i);
        }
        closeRequested := true;
        assert all[..i + 1] == all[..i] + [data];
        i := i + 1;
      }
      assert all[..i] == all;
      assert all[0] == FileDataOf(files[0], f, user);
      ThroughFirstFailureAll(all, accepted);
      forall j | 0 <= j < |files| ensures accepted(FileDataOf(files[j], f, user)) {
        assert all[j] == FileDataOf(files[j], f, user);
      }
      outcome := AllUploaded;
    }
  }

  /** The dialog shows exactly for active users; the role plays no part. */
  lemma VisibleSpec(d: UploadDialog)
    ensures d.Visible() <==> d.user.Some? && d.user.value.isActive == Some(true)
  {
  }

  /**
   * The session the login answer creates has no `isActive`, so the dialog never shows after
   * a login as written; with the flag in the answer it shows for every user who can sign in.
   */
  lemma DialogAfterLogin(u: Schema.UserRow)
    ensures !RoleContext.CanUploadFiles(Some(Routes.LoginUserAsWritten(u)))
    ensures u.isActive ==> RoleContext.CanUploadFiles(Some(Routes.LoginUser(u)))
  {
    Routes.LoginAnswerBlocksUploads(u);
    if u.isActive {
      Routes.LoginAnswerAllowsUploads(u);
    }
  }
}

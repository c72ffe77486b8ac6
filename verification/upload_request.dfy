/**
 * The form request that guards `upload` and `update`. The framework runs, in this order,
 * `prepareForValidation` (copies the file's client name into `filename`), `authorize` (a signed-in
 * user) and the rules: the file's type must be pdf, txt, doc or docx (and its client extension not a
 * PHP one), and `filename` must be present
 * and not already used by another document of the same user, the document being updated excepted.
 */
module UploadRules {
  import opened Common
  import opened Models

  const AllowedTypes: set<string> := {"pdf", "txt", "doc", "docx"}
  const DuplicateNameMessage := "A document with this name already exists"
  /**
   * The client extensions the framework's `mimes` rule refuses outright, whatever the content,
   * unless `php` is itself among the allowed types (it is not here).
   */
  const PhpExtensions: set<string> := {"php", "php3", "php4", "php5", "php7", "php8", "phtml", "phar"}

  /** The request: the signed-in user if any, the `file` part if any, and the route's `{id}` on update. */
  datatype UploadRequest = UploadRequest(user: Option<UserId>, file: Option<UploadedFile>, routeId: Option<Uuid>)

  /** The rules that can fail on a request that reached them. */
  datatype RuleError = FileMimes | FilenameRequired | FilenameUnique

  /**
   * The outcome of resolving the request: it broke down while being prepared (there is no file to
   * take a name from), it was refused (HTTP 403), it failed its rules (HTTP 422), or it reached the
   * controller with its `filename`.
   */
  datatype Verdict =
    | PreparationFailed
    | Unauthorized
    | Rejected(errors: seq<RuleError>)
    | Accepted(filename: string)

  /** `prepareForValidation`: the `filename` merged into the input, or None when there is no file to ask. */
  function PreparedFilename(req: UploadRequest): (name: Option<string>)
    ensures name.Some? <==> req.file.Some?
    ensures name.Some? ==> name.value == req.file.value.originalName
  {
    match req.file
    case Some(f) => Some(f.originalName)
    case None => None
  }

  /** `authorize`: only a signed-in user may upload. */
  predicate Authorized(req: UploadRequest)
    // a guest is refused, whatever the request carries
    ensures req.user.None? ==> !Authorized(req)
    ensures req.user.Some? ==> Authorized(req)
  {
    req.user.Some?
  }

  /** PHP's `trim` characters: space, tab, line feed, carriage return, NUL, vertical tab. */
  predicate IsTrimmed(c: char)
  {
    c == ' ' || c == '\t' || c == '\n' || c == '\r' || c == '\0' || c == '\U{0B}'
  }

  /** `strtolower` on one character: only the ASCII capitals change. */
  function LowerChar(c: char): (r: char)
    ensures 'A' <= c <= 'Z' ==> r as int == c as int + 32
    ensures !('A' <= c <= 'Z') ==> r == c
  {
    if 'A' <= c <= 'Z' then (c as int + 32) as char else c
  }

  /** `strtolower`. */
  function Lower(s: string): (r: string)
    ensures |r| == |s|
    ensures forall i :: 0 <= i < |s| ==> r[i] == LowerChar(s[i])
  {
    seq(|s|, i requires 0 <= i < |s| => LowerChar(s[i]))
  }

  /** `ltrim`: the longest suffix of `s` that does not start with a trimmed character. */
  function TrimStart(s: string): (r: string)
    ensures |r| <= |s| && r == s[|s| - |r|..]
    ensures r == [] || !IsTrimmed(r[0])
    ensures forall i :: 0 <= i < |s| - |r| ==> IsTrimmed(s[i])
    decreases |s|
  {
    if s != [] && IsTrimmed(s[0]) then TrimStart(s[1..]) else s
  }

  /** `rtrim`: the longest prefix of `s` that does not end with a trimmed character. */
  function TrimEnd(s: string): (r: string)
    ensures |r| <= |s| && r == s[..|r|]
    ensures r == [] || !IsTrimmed(r[|r| - 1])
    ensures forall i :: |r| <= i < |s| ==> IsTrimmed(s[i])
    decreases |s|
  {
    if s != [] && IsTrimmed(s[|s| - 1]) then TrimEnd(s[..|s| - 1]) else s
  }

  /** `trim`. */
  function Trim(s: string): string
  {
    TrimStart(TrimEnd(s))
  }

  /** The `mimes` rule's guard against PHP uploads, judged on the client extension. */
  predicate BlocksPhpUpload(file: UploadedFile)
  {
    Trim(Lower(file.extension)) in PhpExtensions
  }

  /**
   * `mimes:pdf,txt,doc,docx`: the client extension is not a PHP one, and the extension guessed from
   * the file's content is one of the allowed types.
   */
  predicate AllowedType(file: UploadedFile)
    // a PHP client extension is refused whatever the content looks like
    ensures BlocksPhpUpload(file) ==> !AllowedType(file)
    ensures !BlocksPhpUpload(file) && file.guessedExtension in AllowedTypes ==> AllowedType(file)
    // a content type outside the allowed list is refused
    ensures file.guessedExtension !in AllowedTypes ==> !AllowedType(file)
  {
    !BlocksPhpUpload(file) && file.guessedExtension in AllowedTypes
  }

  /** `required` fails on a string that is empty once trimmed; the other rules are then skipped. */
  predicate Blank(s: string)
  {
    forall i :: 0 <= i < |s| ==> IsTrimmed(s[i])
  }

  /**
   * `unique:documents,name` scoped to the user and ignoring the route's document: some other
   * document of `user` already carries `name`.
   */
  predicate NameTaken(documents: map<Uuid, Document>, user: UserId, name: string, ignore: Option<Uuid>)
    // the name is free when every other document of the user is named differently
    ensures !NameTaken(documents, user, name, ignore) <==>
      forall k :: k in documents && documents[k].userId == user && ignore != Some(k) ==> documents[k].name != name
    // ignoring a key that is not in the table is ignoring nothing
    ensures ignore.Some? && ignore.value !in documents ==>
      (NameTaken(documents, user, name, ignore) <==>
         exists k :: k in documents && documents[k].userId == user && documents[k].name == name)
  {
    exists k :: k in documents && documents[k].userId == user && documents[k].name == name && ignore != Some(k)
  }

  /** The failing rules, in the order the rules are declared. */
  function Errors(documents: map<Uuid, Document>, user: UserId, file: UploadedFile, ignore: Option<Uuid>): seq<RuleError>
  {
    var name := file.originalName;
    (if AllowedType(file) then [] else [FileMimes])
    + (if Blank(name) then [FilenameRequired]
       else if NameTaken(documents, user, name, ignore) then [FilenameUnique]
       else [])
  }

  /** Resolving the request against the current documents. */
  function Validate(documents: map<Uuid, Document>, req: UploadRequest): (v: Verdict)
    ensures v.PreparationFailed? <==> req.file.None?
    ensures v.Unauthorized? <==> req.file.Some? && req.user.None?
    ensures v.Accepted? <==>
      && req.file.Some? && req.user.Some?
      && AllowedType(req.file.value)
      && !Blank(req.file.value.originalName)
      && !NameTaken(documents, req.user.value, req.file.value.originalName, req.routeId)
    ensures v.Accepted? ==> Some(v.filename) == PreparedFilename(req)
    ensures v.Rejected? ==> v.errors != []
  {
    match PreparedFilename(req)
    case None => PreparationFailed
    case Some(name) =>
      if !Authorized(req) then Unauthorized
      else
        var errors := Errors(documents, req.user.value, req.file.value, req.routeId);
        if errors == [] then Accepted(name) else Rejected(errors)
  }

  /** The custom message of `messages()`; the other rules use the framework's default wording. */
  function CustomMessage(e: RuleError): (m: Option<string>)
    ensures m.Some? <==> e == FilenameUnique
    ensures e == FilenameUnique ==> m == Some(DuplicateNameMessage)
  {
    if e == FilenameUnique then Some(DuplicateNameMessage) else None
  }

  // ---------------------------------------------------------------------------------------------

  /**
   * A name already used by another document of the same user is refused, with the message
   * 'A document with this name already exists'.
   */
  lemma DuplicateRejected(documents: map<Uuid, Document>, req: UploadRequest, k: Uuid)
    requires req.file.Some? && req.user.Some?
    requires !Blank(req.file.value.originalName)
    requires k in documents && req.routeId != Some(k)
    requires documents[k].userId == req.user.value && documents[k].name == req.file.value.originalName
    ensures Validate(documents, req).Rejected?
    ensures FilenameUnique in Validate(documents, req).errors
    ensures CustomMessage(FilenameUnique) == Some(DuplicateNameMessage)
  {
    assert NameTaken(documents, req.user.value, req.file.value.originalName, req.routeId);
  }

  /** An extension without capitals and without whitespace at either end is its own normal form. */
  lemma PlainExtension(e: string)
    requires forall i :: 0 <= i < |e| ==> !('A' <= e[i] <= 'Z')
    requires e == [] || (!IsTrimmed(e[0]) && !IsTrimmed(e[|e| - 1]))
    ensures Trim(Lower(e)) == e
  {
    assert Lower(e) == e;
    assert TrimEnd(e) == e;
  }

  /** The client extension decides the PHP guard: "php" is blocked, "PHP" too, and "pdf" is not. */
  lemma PhpGuardExamples()
    ensures Trim(Lower("php")) == "php" && Trim(Lower("PHP")) == "php" && Trim(Lower("pdf")) == "pdf"
  {
    PlainExtension("php");
    PlainExtension("pdf");
    var lowered := Lower("PHP");
    assert lowered[0] == 'p' && lowered[1] == 'h' && lowered[2] == 'p';
    assert lowered == "php";
  }

  /**
   * A file whose client extension is a PHP one is refused by the type rule even when its content
   * passes for text, whatever the case of the extension.
   */
  lemma PhpUploadRefused(documents: map<Uuid, Document>, user: UserId)
    ensures
      var req := UploadRequest(Some(user), Some(UploadedFile("notes.php", "php", "txt")), None);
      Validate(documents, req).Rejected? && FileMimes in Validate(documents, req).errors
    ensures BlocksPhpUpload(UploadedFile("notes.PHP", "PHP", "txt"))
    ensures !BlocksPhpUpload(UploadedFile("notes.pdf", "pdf", "pdf"))
  {
    PhpGuardExamples();
    assert !AllowedType(UploadedFile("notes.php", "php", "txt"));
  }

  /** Documents of other users never cause a name conflict: adding one changes no verdict. */
  lemma OtherUsersIgnored(documents: map<Uuid, Document>, req: UploadRequest, k: Uuid, d: Document)
    requires req.user.Some? && d.userId != req.user.value
    ensures Validate(documents[k := d], req) == Validate(documents - {k}, req)
  {
    if req.file.Some? {
      var user, name := req.user.value, req.file.value.originalName;
      var with, without := documents[k := d], documents - {k};
      if NameTaken(with, user, name, req.routeId) {
        var j :| j in with && with[j].userId == user && with[j].name == name && req.routeId != Some(j);
        assert j != k;
        assert j in without && without[j] == with[j];
      }
      if NameTaken(without, user, name, req.routeId) {
        var j :| j in without && without[j].userId == user && without[j].name == name && req.routeId != Some(j);
        assert j in with && with[j] == without[j];
      }
    }
  }

  /**
   * On update, the document named by the route is left out of the uniqueness check: its owner may
   * upload a file under the document's current name.
   */
  lemma UpdateMayKeepName(documents: map<Uuid, Document>, req: UploadRequest, id: Uuid)
    requires UniqueNames(documents)
    requires req.file.Some? && req.user.Some? && req.routeId == Some(id)
    requires id in documents && documents[id].userId == req.user.value
    requires documents[id].name == req.file.value.originalName
    requires AllowedType(req.file.value) && !Blank(req.file.value.originalName)
    ensures Validate(documents, req) == Accepted(documents[id].name)
  {
  }

  /**
   * When the ignore excepts no row, as when the route's uuid matches no `id` column value, the
   * owner cannot keep a document's current name: the update is refused as a duplicate.
   */
  lemma KeepNameRefusedWithoutIgnore(documents: map<Uuid, Document>, req: UploadRequest, id: Uuid)
    requires req.file.Some? && req.user.Some? && req.routeId.None?
    requires id in documents && documents[id].userId == req.user.value
    requires documents[id].name == req.file.value.originalName
    requires !Blank(req.file.value.originalName)
    ensures Validate(documents, req).Rejected?
    ensures FilenameUnique in Validate(documents, req).errors
  {
    assert NameTaken(documents, req.user.value, req.file.value.originalName, req.routeId);
  }

  /** An accepted request names a user and a file, and the file's name is free for that user. */
  lemma AcceptedNameFree(documents: map<Uuid, Document>, req: UploadRequest)
    requires Validate(documents, req).Accepted?
    ensures req.user.Some? && req.file.Some?
    ensures forall j :: j in documents && documents[j].userId == req.user.value && req.routeId != Some(j) ==>
      documents[j].name != req.file.value.originalName
  {
  }

  /** Storing `d` under `k` keeps names unique when no other document of d's user has d's name. */
  lemma StoreKeepsUnique(documents: map<Uuid, Document>, k: Uuid, d: Document)
    requires UniqueNames(documents)
    requires forall j :: j in documents && j != k && documents[j].userId == d.userId ==> documents[j].name != d.name
    ensures UniqueNames(documents[k := d])
  {
    var after := documents[k := d];
    forall k1, k2 | k1 in after && k2 in after && k1 != k2 && after[k1].userId == after[k2].userId
      ensures after[k1].name != after[k2].name
    {
      if k1 != k && k2 != k {
        assert after[k1] == documents[k1] && after[k2] == documents[k2];
      }
    }
  }

  /** An accepted upload keeps names unique per user. */
  lemma UploadKeepsNamesUnique(documents: map<Uuid, Document>, req: UploadRequest, newId: Uuid)
    requires UniqueNames(documents)
    requires req.routeId.None? && newId !in documents
    requires Validate(documents, req).Accepted?
    ensures UniqueNames(documents[newId := NewDocument(req.user.value, req.file.value)])
  {
    AcceptedNameFree(documents, req);
    StoreKeepsUnique(documents, newId, NewDocument(req.user.value, req.file.value));
  }

  /** An accepted update by the document's owner keeps names unique per user. */
  lemma OwnerUpdateKeepsNamesUnique(documents: map<Uuid, Document>, req: UploadRequest, id: Uuid)
    requires UniqueNames(documents)
    requires req.routeId == Some(id) && id in documents
    requires Validate(documents, req).Accepted?
    requires documents[id].userId == req.user.value
    ensures UniqueNames(documents[id := Renamed(documents[id], req.file.value)])
  {
    AcceptedNameFree(documents, req);
    StoreKeepsUnique(documents, id, Renamed(documents[id], req.file.value));
  }

  /**
   * The uniqueness check is scoped to the requesting user while `update` finds the document by id
   * alone: another user's update passes the check and can give the owner two documents with the
   * same name.
   */
  lemma ForeignUpdateBreaksUniqueness()
    ensures
      var documents := map["a" := Document(1, "report.pdf", "pdf"), "b" := Document(1, "notes.pdf", "pdf")];
      var file := UploadedFile("report.pdf", "pdf", "pdf");
      var req := UploadRequest(Some(2), Some(file), Some("b"));
      && UniqueNames(documents)
      && Validate(documents, req) == Accepted("report.pdf")
      && !UniqueNames(documents["b" := Renamed(documents["b"], file)])
  {
    var documents := map["a" := Document(1, "report.pdf", "pdf"), "b" := Document(1, "notes.pdf", "pdf")];
    var file := UploadedFile("report.pdf", "pdf", "pdf");
    var req := UploadRequest(Some(2), Some(file), Some("b"));
    PhpGuardExamples();
    assert !Blank("report.pdf") by { assert !IsTrimmed("report.pdf"[0]); }
    assert AllowedType(file);
    assert !NameTaken(documents, 2, "report.pdf", Some("b"));
    var after := documents["b" := Renamed(documents["b"], file)];
    assert "a" != "b";
    assert after["a"].name == after["b"].name;
  }
}

/**
 * Artifact framing, task archives and file bookkeeping (server/utils.py).
 *
 * The file system is a `Disk` object whose `files` map each existing path to
 * its content.  The cryptographic and archive primitives the code calls
 * (PBKDF2-HMAC-SHA256, Fernet, zipfile, json, UTF-8 encoding) are not
 * modelled: they are passed around as a `Primitives` record of functions, and
 * the only thing assumed of them is `Lawful`, that each decoder inverts its
 * encoder.
 */
module Utils {
  import opened Wrappers
  import opened Models
  import Text

  type Byte = x: int | 0 <= x < 256
  type Bytes = seq<Byte>

  /** Directory defaults of the configuration (config.py). */
  const UploadDir: string := "uploads"
  const ResultDir: string := "results"

  /** The container starts with a 16-byte salt; the rest is the Fernet token. */
  const SaltLength: nat := 16

  /** The pre-shared password both client and server compile in. */
  const FixedPassword: string := "whisper-task-password"

  /** The two entries a task archive must hold. */
  const MetadataEntry: string := "metadata.json"
  const AudioEntry: string := "audio.ogg"

  /** A name `os.path.join` treats as absolute. */
  predicate Absolute(name: string)
  {
    |name| > 0 && name[0] == '/'
  }

  /** What `os.path.join` puts before a relative name: nothing for "", a directory ending in "/" as it is, else the directory and "/". */
  function DirPrefix(dir: string): (d: string)
    ensures d == [] || d[|d| - 1] == '/'
  {
    if dir == [] || dir[|dir| - 1] == '/' then dir else dir + "/"
  }

  /** `os.path.join(dir, name)` (POSIX): an absolute name discards the directory. */
  function PathJoin(dir: string, name: string): Path
  {
    if Absolute(name) then name else DirPrefix(dir) + name
  }

  /** f lies (textually) inside directory dir. */
  predicate Under(f: Path, dir: Path)
  {
    var d := DirPrefix(dir);
    |d| < |f| && f[..|d|] == d
  }

  /** f is an entry directly inside dir: no further "/" after the directory. */
  predicate Entry(f: Path, dir: Path)
  {
    Under(f, dir) && '/' !in f[|DirPrefix(dir)|..]
  }

  lemma UnderJoin(dir: string, name: string)
    ensures name != [] && !Absolute(name) ==>
      Under(PathJoin(dir, name), dir) && PathJoin(dir, name)[|DirPrefix(dir)|..] == name
  {
    var p := PathJoin(dir, name);
    if !Absolute(name) {
      assert p[..|DirPrefix(dir)|] == DirPrefix(dir);
    }
  }

  /**
   * RESULT_DIR/{task_id}.srt, the only place a result is written.  The id
   * comes from the client unchecked: only an id without "/" is sure to name
   * an entry of RESULT_DIR (see AbsoluteIdEscapes).
   */
  function ResultPath(taskId: TaskId): (p: Path)
    ensures Text.EndsWith(p, ".srt")
    ensures '/' !in taskId ==> Entry(p, ResultDir)
  {
    var p := PathJoin(ResultDir, taskId + ".srt");
    UnderJoin(ResultDir, taskId + ".srt");
    assert p[|p| - 4..] == ".srt";
    p
  }

  /** UPLOAD_DIR/{task_id}.zip.enc, where an upload (and a server-built container) is stored. */
  function UploadPath(taskId: TaskId): (p: Path)
    ensures Text.EndsWith(p, ".zip.enc")
    ensures '/' !in taskId ==> Entry(p, UploadDir)
  {
    var p := PathJoin(UploadDir, taskId + ".zip.enc");
    UnderJoin(UploadDir, taskId + ".zip.enc");
    assert p[|p| - 8..] == ".zip.enc";
    p
  }

  /**
   * With the default, relative RESULT_DIR, distinct tasks have distinct
   * result paths (an absolute id keeps its own leading "/"), and no result
   * path is an upload path.  The comparison is textual: "x" and "./x" give
   * two paths that name one file (see DistinctResultEntries for the ids
   * where distinct paths are distinct files).
   */
  lemma {:induction false} ResultPathInjective(a: TaskId, b: TaskId)
    ensures ResultPath(a) == ResultPath(b) <==> a == b
    ensures ResultPath(a) != UploadPath(b)
  {
    var pa, pb := ResultPath(a), ResultPath(b);
    if pa == pb {
      var offset := if Absolute(a + ".srt") then 0 else |ResultDir| + 1;
      assert Absolute(a + ".srt") <==> Absolute(b + ".srt") by {
        assert pa[0] == pb[0];
      }
      assert |a| == |b|;
      forall i | 0 <= i < |a| ensures a[i] == b[i] {
        assert a[i] == pa[offset + i];
        assert b[i] == pb[offset + i];
      }
    }
    var pu := UploadPath(b);
    assert pa[|pa| - 1] == 't' && pu[|pu| - 1] == 'c';
  }

  /**
   * For ids without "/", distinct tasks' result files are distinct names
   * directly inside RESULT_DIR, so they are distinct files: neither name can
   * be "." or "..", since both end in ".srt".
   */
  lemma DistinctResultEntries(a: TaskId, b: TaskId)
    requires '/' !in a && '/' !in b && a != b
    ensures Entry(ResultPath(a), ResultDir) && Entry(ResultPath(b), ResultDir)
    ensures ResultPath(a)[|ResultDir| + 1..] != ResultPath(b)[|ResultDir| + 1..]
    ensures ResultPath(a)[|ResultDir| + 1..] !in {".", ".."}
  {
    ResultPathInjective(a, b);
    assert ResultPath(a)[..|ResultDir| + 1] == ResultPath(b)[..|ResultDir| + 1];
    assert ResultPath(a) == ResultPath(a)[..|ResultDir| + 1] + ResultPath(a)[|ResultDir| + 1..];
    assert ResultPath(b) == ResultPath(b)[..|ResultDir| + 1] + ResultPath(b)[|ResultDir| + 1..];
  }

  /**
   * The hazard of the unchecked id: an absolute id names a file outside
   * RESULT_DIR and UPLOAD_DIR altogether.
   */
  lemma AbsoluteIdEscapes(taskId: TaskId)
    requires Absolute(taskId)
    ensures ResultPath(taskId) == taskId + ".srt" && !Under(ResultPath(taskId), ResultDir)
    ensures UploadPath(taskId) == taskId + ".zip.enc" && !Under(UploadPath(taskId), UploadDir)
  {
    assert ResultPath(taskId)[0] == '/';
    assert UploadPath(taskId)[0] == '/';
  }

  /**
   * Were RESULT_DIR configured as an absolute directory, the id "x" and the
   * id spelling that directory out would share one result file.
   */
  lemma AbsoluteResultDirCollides()
    ensures PathJoin("/srv/results", "x.srt") == PathJoin("/srv/results", "/srv/results/x.srt")
  {
  }

  datatype FileData = Binary(bytes: Bytes) | TextFile(text: string)

  /** The file system: the content of every existing path. */
  class Disk {
    var files: map<Path, FileData>

    constructor (files: map<Path, FileData>)
      ensures this.files == files
    {
      this.files := files;
    }
  }

  // ---------------------------------------------------------------- codec

  /**
   * The foreign primitives the code calls, as functions.  Key derivation is
   * PBKDF2 (section 5.2 of RFC 8018) with HMAC-SHA256, a 32-byte key and
   * 100000 iterations, base64url-encoded for Fernet.
   */
  datatype Primitives = Primitives(
    deriveKey: (string, Bytes) -> Bytes,               // PBKDF2HMAC(...).derive, then urlsafe_b64encode
    encrypt: (Bytes, Bytes) -> Bytes,                  // Fernet(key).encrypt
    decrypt: (Bytes, Bytes) -> Option<Bytes>,          // Fernet(key).decrypt; None for InvalidToken
    zip: map<string, Bytes> -> Bytes,                  // ZipFile(..., ZIP_DEFLATED) with the given entries
    unzip: Bytes -> Option<map<string, Bytes>>,        // ZipFile(...).extractall; None for a bad archive
    dumpJson: map<string, string> -> string,           // json.dump
    loadJson: Bytes -> Option<map<string, string>>,    // json.load of a UTF-8 file
    encode: string -> Bytes)                           // UTF-8 encoding of a text file

  /** What the code relies on: decryption with the same key, unzipping and JSON loading invert their encoders. */
  ghost predicate Lawful(p: Primitives)
  {
    && (forall key, plain :: p.decrypt(key, p.encrypt(key, plain)) == Some(plain))
    && (forall archive :: p.unzip(p.zip(archive)) == Some(archive))
    && (forall record :: p.loadJson(p.encode(p.dumpJson(record))) == Some(record))
  }

  /** The bytes `open(path, 'rb').read()` returns. */
  function BytesOf(p: Primitives, d: FileData): Bytes
  {
    match d
    case Binary(b) => b
    case TextFile(s) => p.encode(s)
  }

  /** `salt + encrypted_data`: the only framing of a container. */
  function Frame(salt: Bytes, token: Bytes): (data: Bytes)
    requires |salt| == SaltLength
    ensures |data| == SaltLength + |token|
    ensures Unframe(data) == (salt, token)
  {
    assert (salt + token)[..SaltLength] == salt;
    assert (salt + token)[SaltLength..] == token;
    salt + token
  }

  /** `(combined_data[:16], combined_data[16:])`, which also accepts data shorter than a salt. */
  function Unframe(data: Bytes): (parts: (Bytes, Bytes))
    ensures parts.0 + parts.1 == data
    ensures |parts.0| == if |data| < SaltLength then |data| else SaltLength
  {
    if |data| < SaltLength then (data, []) else (data[..SaltLength], data[SaltLength..])
  }

  /** encrypt_file's content: a key derived from the password and salt encrypts the plaintext. */
  function Seal(p: Primitives, plain: Bytes, password: string, salt: Bytes): (data: Bytes)
    requires |salt| == SaltLength
    ensures Unframe(data).0 == salt
  {
    Frame(salt, p.encrypt(p.deriveKey(password, salt), plain))
  }

  /** decrypt_file's content: the salt is re-read from the container and the key re-derived. */
  function Unseal(p: Primitives, data: Bytes, password: string): Option<Bytes>
  {
    var (salt, token) := Unframe(data);
    p.decrypt(p.deriveKey(password, salt), token)
  }

  /** Decryption with the same password recovers what encryption sealed. */
  lemma SealRoundTrip(p: Primitives, plain: Bytes, password: string, salt: Bytes)
    requires Lawful(p) && |salt| == SaltLength
    ensures Unseal(p, Seal(p, plain, password, salt), password) == Some(plain)
  {
    var token := p.encrypt(p.deriveKey(password, salt), plain);
    assert Unframe(Frame(salt, token)) == (salt, token);
  }

  /** The metadata record a server-built archive carries: metadata.dict() with submit_time rendered by str(). */
  function MetadataRecord(m: TaskMetadata, submitTimeText: string): map<string, string>
  {
    map["task_id" := m.taskId, "filename" := m.filename, "password" := m.password,
        "model" := m.model, "submit_time" := submitTimeText]
  }

  /** The archive create_task_zip writes: exactly metadata.json and audio.ogg. */
  function TaskArchive(p: Primitives, record: map<string, string>, audio: Bytes): (archive: map<string, Bytes>)
    ensures archive.Keys == {MetadataEntry, AudioEntry}
  {
    map[MetadataEntry := p.encode(p.dumpJson(record)), AudioEntry := audio]
  }

  datatype ExtractError =
    | ContainerMissing   // the encrypted file does not exist
    | DecryptionFailed   // wrong password or tampered token
    | BadArchive         // the plaintext is not a zip archive
    | MetadataMissing    // no metadata.json entry
    | BadMetadata        // metadata.json is not a JSON record
    | AudioMissing       // no audio.ogg entry

  /** The archive inside a container, if it decrypts and unzips. */
  function ArchiveOf(p: Primitives, data: Bytes, password: string): Option<map<string, Bytes>>
  {
    match Unseal(p, data, password)
    case None => None
    case Some(plain) => p.unzip(plain)
  }

  /**
   * What extract_task_zip reads out of a container: the metadata record and
   * the audio bytes.  It fails, in this order, when decryption fails, the
   * plaintext is no archive, metadata.json is missing or unreadable, or
   * audio.ogg is missing.
   */
  function OpenContainer(p: Primitives, data: Bytes, password: string): (r: Result<(map<string, string>, Bytes), ExtractError>)
    ensures r.Ok? <==>
      && ArchiveOf(p, data, password).Some?
      && MetadataEntry in ArchiveOf(p, data, password).value
      && AudioEntry in ArchiveOf(p, data, password).value
      && p.loadJson(ArchiveOf(p, data, password).value[MetadataEntry]).Some?
    ensures r.Ok? ==>
      && Some(r.value.0) == p.loadJson(ArchiveOf(p, data, password).value[MetadataEntry])
      && r.value.1 == ArchiveOf(p, data, password).value[AudioEntry]
    ensures r == Err(DecryptionFailed) <==> Unseal(p, data, password).None?
  {
    match Unseal(p, data, password)
    case None => Err(DecryptionFailed)
    case Some(plain) =>
      match p.unzip(plain)
      case None => Err(BadArchive)
      case Some(archive) =>
        if MetadataEntry !in archive then Err(MetadataMissing)
        else match p.loadJson(archive[MetadataEntry])
          case None => Err(BadMetadata)
          case Some(record) =>
            if AudioEntry !in archive then Err(AudioMissing) else Ok((record, archive[AudioEntry]))
  }

  /** A container sealed from a task archive opens, with the same password, to the same record and audio. */
  lemma {:induction false} ContainerRoundTrip(p: Primitives, record: map<string, string>, audio: Bytes, password: string, salt: Bytes)
    requires Lawful(p) && |salt| == SaltLength
    ensures OpenContainer(p, Seal(p, p.zip(TaskArchive(p, record, audio)), password, salt), password) == Ok((record, audio))
  {
    var archive := TaskArchive(p, record, audio);
    var data := Seal(p, p.zip(archive), password, salt);
    SealRoundTrip(p, p.zip(archive), password, salt);
    assert p.unzip(p.zip(archive)) == Some(archive);
    assert ArchiveOf(p, data, password) == Some(archive);
    assert p.loadJson(archive[MetadataEntry]) == Some(record);
  }

  // ---------------------------------------------------------------- archives on disk

  /** The path of the plaintext zip create_task_zip writes before encrypting it. */
  function PlainZipPath(taskId: TaskId): Path
  {
    PathJoin(UploadDir, taskId + ".zip")
  }

  /**
   * ZipFileHandler.create_task_zip: archive metadata.json and audio.ogg, write
   * UPLOAD_DIR/{task_id}.zip, encrypt it to UPLOAD_DIR/{task_id}.zip.enc and
   * remove the plaintext zip.  The copies made in its temporary directory leave
   * no trace and are not modelled.  A missing audio file makes the copy raise.
   */
  method CreateTaskZip(disk: Disk, p: Primitives, metadata: TaskMetadata, submitTimeText: string,
                       audioPath: Path, password: string, salt: Bytes)
    returns (r: Result<Path, string>)
    requires |salt| == SaltLength
    modifies disk
    ensures audioPath !in old(disk.files) ==> r.Err? && disk.files == old(disk.files)
    ensures audioPath in old(disk.files) ==>
      var archive := TaskArchive(p, MetadataRecord(metadata, submitTimeText), BytesOf(p, old(disk.files)[audioPath]));
      && r == Ok(UploadPath(metadata.taskId))
      && disk.files == (old(disk.files) - {PlainZipPath(metadata.taskId)})[UploadPath(metadata.taskId) := Binary(Seal(p, p.zip(archive), password, salt))]
  {
    if audioPath !in disk.files {
      return Err("No such file or directory: " + audioPath);
    }
    var archive := TaskArchive(p, MetadataRecord(metadata, submitTimeText), BytesOf(p, disk.files[audioPath]));
    var zipPath := PlainZipPath(metadata.taskId);
    disk.files := disk.files[zipPath := Binary(p.zip(archive))];
    // encrypt_file(zip_path, password)
    var plain := BytesOf(p, disk.files[zipPath]);
    var encryptedPath := zipPath + ".enc";
    assert encryptedPath == UploadPath(metadata.taskId);
    disk.files := disk.files[encryptedPath := Binary(Seal(p, plain, password, salt))];
    disk.files := disk.files - {zipPath};
    r := Ok(encryptedPath);
  }

  datatype Extracted = Extracted(metadata: map<string, string>, audioPath: Path, extractDir: Path)

  /**
   * ZipFileHandler.extract_task_zip.  The temporary directory is the map
   * `scratch`, which disappears when the method returns, exactly as the
   * `with tempfile.TemporaryDirectory()` block removes the directory before
   * the caller sees the result: the returned audio path no longer exists.
   */
  method ExtractTaskZip(disk: Disk, p: Primitives, encryptedPath: Path, password: string, tempDir: Path)
    returns (r: Result<Extracted, ExtractError>)
    requires forall f :: f in disk.files ==> !Under(f, tempDir)
    ensures encryptedPath !in disk.files ==> r == Err(ContainerMissing)
    ensures encryptedPath in disk.files ==>
      var outcome := OpenContainer(p, BytesOf(p, disk.files[encryptedPath]), password);
      && (outcome.Err? ==> r == Err(outcome.error))
      && (outcome.Ok? ==> r == Ok(Extracted(outcome.value.0,
                                           PathJoin(PathJoin(tempDir, "extracted"), AudioEntry),
                                           PathJoin(tempDir, "extracted"))))
    ensures r.Ok? ==> Under(r.value.audioPath, tempDir) && r.value.audioPath !in disk.files
  {
    if encryptedPath !in disk.files {
      return Err(ContainerMissing);
    }
    var scratch: map<Path, FileData> := map[];
    // decrypt_file(encrypted_zip_path, password, decrypted_zip_path)
    var data := BytesOf(p, disk.files[encryptedPath]);
    var plain := Unseal(p, data, password);
    if plain.None? {
      return Err(DecryptionFailed);
    }
    var decryptedZip := PathJoin(tempDir, "decrypted.zip");
    scratch := scratch[decryptedZip := Binary(plain.value)];
    // zipf.extractall(extract_dir), for the two entries the code reads
    var extractDir := PathJoin(tempDir, "extracted");
    var archive := p.unzip(plain.value);
    if archive.None? {
      return Err(BadArchive);
    }
    var metadataPath := PathJoin(extractDir, MetadataEntry);
    var audioPath := PathJoin(extractDir, AudioEntry);
    if MetadataEntry in archive.value {
      scratch := scratch[metadataPath := Binary(archive.value[MetadataEntry])];
    }
    if AudioEntry in archive.value {
      scratch := scratch[audioPath := Binary(archive.value[AudioEntry])];
    }
    // open(metadata_path) and json.load
    if metadataPath !in scratch {
      return Err(MetadataMissing);
    }
    var metadata := p.loadJson(BytesOf(p, scratch[metadataPath]));
    if metadata.None? {
      return Err(BadMetadata);
    }
    if audioPath !in scratch {
      return Err(AudioMissing);
    }
    UnderJoin(tempDir, "extracted");
    UnderJoin(extractDir, AudioEntry);
    assert Under(audioPath, tempDir) by {
      var d := DirPrefix(tempDir);
      assert audioPath[..|d|] == extractDir[..|d|];
    }
    r := Ok(Extracted(metadata.value, audioPath, extractDir));
  }

  // ---------------------------------------------------------------- FileManager

  /**
   * FileManager.save_result: write the subtitle text to RESULT_DIR/{task_id}.srt
   * and return that path.  `failure` is the message of the OSError the write
   * raises, if it does.
   */
  method SaveResult(disk: Disk, taskId: TaskId, srtContent: string, failure: Option<string>)
    returns (r: Result<Path, string>)
    modifies disk
    ensures failure.None? ==>
      r == Ok(ResultPath(taskId)) && disk.files == old(disk.files)[ResultPath(taskId) := TextFile(srtContent)]
    ensures failure.Some? ==> r == Err(failure.value) && disk.files == old(disk.files)
  {
    if failure.Some? {
      return Err(failure.value);
    }
    var resultPath := ResultPath(taskId);
    disk.files := disk.files[resultPath := TextFile(srtContent)];
    r := Ok(resultPath);
  }

  /** The files cleanup_task_files removes: the zip, when one is given, and the task's result file. */
  function CleanupTargets(taskId: TaskId, zipFilePath: Option<Path>): (targets: set<Path>)
    ensures forall f :: f in targets <==> f == ResultPath(taskId) || (IsSet(zipFilePath) && f == zipFilePath.value)
  {
    (if IsSet(zipFilePath) then {zipFilePath.value} else {}) + {ResultPath(taskId)}
  }

  /**
   * FileManager.cleanup_task_files: remove the zip if given and present, then
   * RESULT_DIR/{task_id}.srt if present; nothing else changes and nothing is raised.
   */
  method CleanupTaskFiles(disk: Disk, taskId: TaskId, zipFilePath: Option<Path>)
    modifies disk
    ensures disk.files == old(disk.files) - CleanupTargets(taskId, zipFilePath)
  {
    if IsSet(zipFilePath) && zipFilePath.value in disk.files {
      disk.files := disk.files - {zipFilePath.value};
    }
    var resultPath := ResultPath(taskId);
    if resultPath in disk.files {
      disk.files := disk.files - {resultPath};
    }
  }
}

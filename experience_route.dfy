/** The experience endpoint keeps each user's experience in a file of its
    own, `data/users/<username>.json`. GET reports the stored experience; POST
    adds a signed change to it, never letting it drop below zero, and writes
    the result back. */
module ExperienceRoute {
  import opened Common

  /** A user file: text that does not parse as JSON, or a parsed value. */
  datatype UserFile = Garbage | Parsed(value: Json)

  /** The POST response body. */
  datatype Change = Change(experience: int, change: int, previousExperience: int)

  /** `Math.max(0, current + change)`: the new experience never drops below
      zero and is the plain sum whenever that sum is not negative. */
  function NewExperience(current: int, change: int): (r: int)
    ensures r >= 0 && r >= current + change
    ensures r == current + change <==> current + change >= 0
    ensures current + change < 0 ==> r == 0
  {
    Max(0, current + change)
  }

  /** Whether writing `username`'s experience succeeds: a missing file is
      created as an object first; an object or an array takes the new value;
      anything else makes the write throw. */
  predicate Writable(files: map<string, UserFile>, username: string) {
    username !in files || (files[username].Parsed? && (files[username].value.JObj? || files[username].value.JArr?))
  }

  /** The per-user files, keyed by username. */
  class UserFiles {
    var files: map<string, UserFile>

    constructor (files: map<string, UserFile>)
      ensures this.files == files
    {
      this.files := files;
    }

    /** `readUserExperience`: the file's `experience` when it is set and
        truthy, otherwise 0; a missing or unparsable file, or one holding
        `null`, also reads as 0. */
    function ReadUserExperience(username: string): (n: int)
      reads this
      ensures n != 0 ==> username in files && files[username].Parsed? && files[username].value.JObj? &&
                         "experience" in files[username].value.fields &&
                         files[username].value.fields["experience"] == JNum(n)
      ensures (username in files && files[username].Parsed? && files[username].value.JObj? &&
               "experience" in files[username].value.fields &&
               files[username].value.fields["experience"].JNum?) ==>
        n == files[username].value.fields["experience"].n
      ensures !(username in files && files[username].Parsed? && files[username].value.JObj? &&
                "experience" in files[username].value.fields &&
                files[username].value.fields["experience"].JNum?) ==>
        n == 0
    {
      if username !in files then 0
      else match files[username]
        case Garbage => 0
        case Parsed(JObj(fields)) =>
          if "experience" in fields && fields["experience"].JNum? then fields["experience"].n else 0
        case Parsed(_) => 0
    }

    /** `writeUserExperience`: a missing file is first created as
        `{ username, experience: 0 }`; then the file is read back and its
        `experience` set. An object gets the new value and keeps its other
        fields; an array takes the property but serialises unchanged; an
        unparsable file, `null` or a primitive makes the write fail, with
        nothing written. */
    method WriteUserExperience(username: string, experience: int) returns (ok: bool)
      modifies this
      ensures var before := if username in old(files) then old(files)[username]
                            else Parsed(JObj(map["username" := JStr(username), "experience" := JNum(0)]));
        && (ok <==> before.Parsed? && (before.value.JObj? || before.value.JArr?))
        && (ok && before.value.JObj? ==>
              files == old(files)[username := Parsed(JObj(before.value.fields["experience" := JNum(experience)]))])
        && (ok && before.value.JArr? ==> files == old(files)[username := before])
        && (!ok ==> files == old(files))
    {
      if username !in files {
        files := files[username := Parsed(JObj(map["username" := JStr(username), "experience" := JNum(0)]))];
      }
      var current := files[username];
      if current.Garbage? {
        return false;
      }
      match current.value {
        case JObj(fields) =>
          files := files[username := Parsed(JObj(fields["experience" := JNum(experience)]))];
          ok := true;
        case JArr(_) =>
          files := files[username := current];
          ok := true;
        case _ =>
          ok := false;
      }
    }

    /** GET: 401 without a session user, otherwise the stored experience. */
    function Get(session: Option<string>): (r: Result<int, Status>)
      reads this
      ensures SessionUser(session).None? <==> r == Err(Unauthorized)
      ensures SessionUser(session).Some? ==> r == Ok(ReadUserExperience(session.value))
    {
      match SessionUser(session)
      case None => Err(Unauthorized)
      case Some(name) => Ok(ReadUserExperience(name))
    }

    /** POST: 401 without a session user, 500 for a `null` body, 400 unless
        `experienceChange` is a number, 500 when the write fails; otherwise
        the clamped new experience is stored and reported with the change
        and the previous value. */
    method Post(session: Option<string>, body: Json) returns (r: Result<Change, Status>)
      modifies this
      ensures SessionUser(session).None? ==> r == Err(Unauthorized) && files == old(files)
      ensures SessionUser(session).Some? && body.JNull? ==> r == Err(InternalError) && files == old(files)
      ensures SessionUser(session).Some? && !body.JNull? &&
              !(body.JObj? && "experienceChange" in body.fields && body.fields["experienceChange"].JNum?) ==>
        r == Err(BadRequest) && files == old(files)
      // the write is the only other way to fail, and it fails with 500
      ensures r.Ok? <==>
        && SessionUser(session).Some?
        && body.JObj? && "experienceChange" in body.fields && body.fields["experienceChange"].JNum?
        && Writable(old(files), session.value)
      ensures SessionUser(session).Some? && body.JObj? && "experienceChange" in body.fields &&
              body.fields["experienceChange"].JNum? && !Writable(old(files), session.value) ==>
        r == Err(InternalError)
      ensures r.Ok? ==>
        && SessionUser(session).Some?
        && r.value.previousExperience == old(ReadUserExperience(session.value))
        && r.value.change == body.fields["experienceChange"].n
        && r.value.experience == NewExperience(r.value.previousExperience, r.value.change)
      ensures r.Ok? && (session.value !in old(files) ||
                        (old(files)[session.value].Parsed? && old(files)[session.value].value.JObj?)) ==>
        ReadUserExperience(session.value) == r.value.experience
      // the caller's file after a success: an object (a missing file is first
      // created as one) gets the new `experience` and keeps its other fields;
      // an array is written back unchanged
      ensures r.Ok? ==>
        var before := if session.value in old(files) then old(files)[session.value]
                      else Parsed(JObj(map["username" := JStr(session.value), "experience" := JNum(0)]));
        && before.Parsed? && (before.value.JObj? || before.value.JArr?)
        && (before.value.JObj? ==>
              files == old(files)[session.value := Parsed(JObj(before.value.fields["experience" := JNum(r.value.experience)]))])
        && (before.value.JArr? ==> files == old(files)[session.value := before])
      ensures r.Ok? ==> forall u :: u != session.value ==> (u in files <==> u in old(files))
      ensures r.Ok? ==> forall u :: u != session.value && u in files ==> files[u] == old(files)[u]
      ensures r.Err? ==> files == old(files)
    {
      var name := SessionUser(session);
      if name.None? {
        return Err(Unauthorized);
      }
      var field := Destructure(body, "experienceChange");
      if field.Err? {
        return Err(field.error);
      }
      if field.value.None? || !field.value.value.JNum? {
        return Err(BadRequest);
      }
      var change := field.value.value.n;
      var current := ReadUserExperience(name.value);
      var next := NewExperience(current, change);
      var ok := WriteUserExperience(name.value, next);
      if !ok {
        return Err(InternalError);
      }
      r := Ok(Change(next, change, current));
    }
  }
}

/**
 * The remote object client: the request targets of the three endpoints,
 * the request value sent to them, and the loop that assembles a response
 * body from the frames the connection delivers. The connection, its
 * runtime and the network are replaced by the outcome of a send: either a
 * failure or the sequence of frames received.
 */
module MegaClient {
  import opened Wrappers
  import opened Utf8

  /** Target of the listing of a repository's top-level tree. */
  function BaseTreeTarget(repo: string): (t: string)
    ensures |t| == |"/api/v1/tree?repo_path=/projects/"| + |repo|
    ensures t[..|"/api/v1/tree?repo_path=/projects/"|] == "/api/v1/tree?repo_path=/projects/"
    ensures t[|"/api/v1/tree?repo_path=/projects/"|..] == repo
  {
    "/api/v1/tree?repo_path=/projects/" + repo
  }

  /** Target of the listing of the directory whose object id is `id`. */
  function SubTreeTarget(repo: string, id: string): (t: string)
    ensures |t| == |"/api/v1/tree?object_id="| + |id| + |"&repo_path=/projects/"| + |repo|
    ensures t[..|"/api/v1/tree?object_id="|] == "/api/v1/tree?object_id="
    ensures t[|"/api/v1/tree?object_id="|..|"/api/v1/tree?object_id="| + |id|] == id
    ensures t[|"/api/v1/tree?object_id="| + |id|..] == "&repo_path=/projects/" + repo
  {
    "/api/v1/tree?object_id=" + id + "&repo_path=/projects/" + repo
  }

  /** Target of the raw content of the file whose object id is `id`. */
  function FileContentTarget(repo: string, id: string): (t: string)
    ensures |t| == |"/api/v1/object?object_id="| + |id| + |"&repo_path=/projects/"| + |repo|
    ensures t[..|"/api/v1/object?object_id="|] == "/api/v1/object?object_id="
    ensures t[|"/api/v1/object?object_id="|..|"/api/v1/object?object_id="| + |id|] == id
    ensures t[|"/api/v1/object?object_id="| + |id|..] == "&repo_path=/projects/" + repo
  {
    "/api/v1/object?object_id=" + id + "&repo_path=/projects/" + repo
  }

  datatype HttpMethod = Get

  /** An HTTP request whose body is empty (`Empty<Bytes>`). */
  datatype HttpRequest = HttpRequest(verb: HttpMethod, uri: string, body: seq<Byte>)

  /** `form_request_to`: a GET of `target` with no body. */
  function FormRequestTo(target: string): (req: HttpRequest)
    ensures req.verb == Get && req.uri == target && req.body == []
  {
    HttpRequest(Get, target, [])
  }

  /** One item of a response body stream: a data chunk, trailers, or a stream error. */
  datatype Frame = DataFrame(chunk: seq<Byte>) | TrailersFrame | FrameError

  /** What sending a request produced. */
  datatype Response = SendFailed | Received(frames: seq<Frame>)

  /**
   * Why `request` gives no body. Only `SendError` is returned as an `Err` by
   * the source; the other two are `unwrap` panics inside the frame loop.
   */
  datatype ClientError = SendError | FrameFailure | ChunkNotUtf8

  /** A frame the loop accepts: trailers, or a data chunk that is well-formed UTF-8. */
  predicate Accepted(f: Frame) {
    f.TrailersFrame? || (f.DataFrame? && Valid(f.chunk))
  }

  function Fault(f: Frame): ClientError
    requires !Accepted(f)
  {
    if f.FrameError? then FrameFailure else ChunkNotUtf8
  }

  /** The data chunks of the frames, concatenated in arrival order. */
  function DataBytes(frames: seq<Frame>): seq<Byte> {
    if |frames| == 0 then []
    else (if frames[0].DataFrame? then frames[0].chunk else []) + DataBytes(frames[1..])
  }

  /** The result of the frame loop after the given frames have been read. */
  function Assemble(frames: seq<Frame>): (r: Result<seq<Byte>, ClientError>)
    ensures r.Ok? ==> Valid(r.value)
    ensures r.Err? ==> r.error != SendError
  {
    if |frames| == 0 then Ok([])
    else
      var last := frames[|frames| - 1];
      match Assemble(frames[..|frames| - 1])
      case Err(e) => Err(e)
      case Ok(out) =>
        if !Accepted(last) then Err(Fault(last))
        else if last.DataFrame? then
          ConcatValid(out, last.chunk);
          Ok(out + last.chunk)
        else Ok(out)
  }

  /**
   * `request`: the send outcome's failure is propagated; otherwise the data
   * chunks are decoded one by one and appended to the output.
   */
  method Request(response: Response) returns (r: Result<seq<Byte>, ClientError>)
    ensures response.SendFailed? ==> r == Err(SendError)
    ensures response.Received? ==> r == Assemble(response.frames)
  {
    if response.SendFailed? {
      return Err(SendError);
    }
    var frames := response.frames;
    var output: seq<Byte> := [];
    var i := 0;
    while i < |frames|
      invariant 0 <= i <= |frames|
      invariant Assemble(frames[..i]) == Ok(output)
    {
      var frame := frames[i];
      assert frames[..i + 1][..i] == frames[..i];
      match frame {
        case FrameError =>
          AssembleStopsAtError(frames, i + 1);
          return Err(FrameFailure);
        case TrailersFrame =>
        case DataFrame(chunk) =>
          if !Valid(chunk) {
            AssembleStopsAtError(frames, i + 1);
            return Err(ChunkNotUtf8);
          }
          output := output + chunk;
      }
      i := i + 1;
    }
    assert frames[..i] == frames;
    r := Ok(output);
  }

  /** Once the loop has failed, later frames do not change its result. */
  lemma {:induction false} AssembleStopsAtError(frames: seq<Frame>, i: nat)
    requires i <= |frames| && Assemble(frames[..i]).Err?
    ensures Assemble(frames) == Assemble(frames[..i])
    decreases |frames| - i
  {
    if i < |frames| {
      assert frames[..i + 1][..i] == frames[..i];
      AssembleStopsAtError(frames, i + 1);
    } else {
      assert frames[..i] == frames;
    }
  }

  /** The loop succeeds exactly when every frame is accepted, and then yields all data bytes. */
  lemma {:induction false} AssembleOk(frames: seq<Frame>)
    ensures Assemble(frames).Ok? <==> forall i :: 0 <= i < |frames| ==> Accepted(frames[i])
    ensures Assemble(frames).Ok? ==>
              Assemble(frames).value == DataBytes(frames) && Valid(Assemble(frames).value)
  {
    if |frames| > 0 {
      var init := frames[..|frames| - 1];
      var last := frames[|frames| - 1];
      AssembleOk(init);
      DataBytesSnoc(init, last);
      assert init + [last] == frames;
      if Assemble(init).Ok? && Accepted(last) && last.DataFrame? {
        ConcatValid(Assemble(init).value, last.chunk);
      }
      if !Accepted(last) {
        assert !Accepted(frames[|frames| - 1]);
      }
      if Assemble(init).Err? {
        var j :| 0 <= j < |init| && !Accepted(init[j]);
        assert frames[j] == init[j];
      }
    }
  }

  lemma {:induction false} DataBytesSnoc(frames: seq<Frame>, f: Frame)
    ensures DataBytes(frames + [f]) == DataBytes(frames) + (if f.DataFrame? then f.chunk else [])
  {
    if |frames| == 0 {
      assert [f][1..] == [];
    } else {
      assert (frames + [f])[1..] == frames[1..] + [f];
      DataBytesSnoc(frames[1..], f);
    }
  }

  /** The loop fails with the fault of the first frame it does not accept. */
  lemma {:induction false} AssembleFirstFault(frames: seq<Frame>, i: nat)
    requires i < |frames| && !Accepted(frames[i])
    requires forall j :: 0 <= j < i ==> Accepted(frames[j])
    ensures Assemble(frames) == Err(Fault(frames[i]))
  {
    var prefix := frames[..i];
    AssembleOk(prefix);
    assert frames[..i + 1][..i] == prefix;
    assert Assemble(frames[..i + 1]) == Err(Fault(frames[i]));
    AssembleStopsAtError(frames, i + 1);
  }

  predicate NoFrameError(frames: seq<Frame>) {
    forall i :: 0 <= i < |frames| ==> !frames[i].FrameError?
  }

  /**
   * The intended behaviour: every frame is read, and the whole body is
   * checked as UTF-8 once, after the last frame.
   */
  function AssembleWhole(frames: seq<Frame>): Result<seq<Byte>, ClientError> {
    if !NoFrameError(frames) then Err(FrameFailure)
    else if Valid(DataBytes(frames)) then Ok(DataBytes(frames))
    else Err(ChunkNotUtf8)
  }

  /** `request` with the UTF-8 check moved after the loop. */
  method RequestWholeBody(response: Response) returns (r: Result<seq<Byte>, ClientError>)
    ensures response.SendFailed? ==> r == Err(SendError)
    ensures response.Received? ==> r == AssembleWhole(response.frames)
  {
    if response.SendFailed? {
      return Err(SendError);
    }
    var frames := response.frames;
    var output: seq<Byte> := [];
    var i := 0;
    while i < |frames|
      invariant 0 <= i <= |frames|
      invariant NoFrameError(frames[..i]) && output == DataBytes(frames[..i])
    {
      assert frames[..i + 1] == frames[..i] + [frames[i]];
      DataBytesSnoc(frames[..i], frames[i]);
      match frames[i] {
        case FrameError =>
          assert !NoFrameError(frames) by {
            assert frames[i].FrameError?;
          }
          return Err(FrameFailure);
        case TrailersFrame =>
        case DataFrame(chunk) =>
          output := output + chunk;
      }
      i := i + 1;
    }
    assert frames[..i] == frames;
    if Valid(output) {
      r := Ok(output);
    } else {
      r := Err(ChunkNotUtf8);
    }
  }

  /** Wherever the loop as written succeeds, checking the whole body succeeds with the same bytes. */
  lemma WholeBodyAgrees(frames: seq<Frame>)
    requires Assemble(frames).Ok?
    ensures AssembleWhole(frames) == Assemble(frames)
  {
    AssembleOk(frames);
  }

  /**
   * A character whose bytes arrive in two frames aborts the loop as
   * written, while the body it completes is well-formed.
   */
  lemma SplitCharacterAborts()
    ensures Assemble([DataFrame([0xC3]), DataFrame([0xA9])]) == Err(ChunkNotUtf8)
    ensures AssembleWhole([DataFrame([0xC3]), DataFrame([0xA9])]) == Ok([0xC3, 0xA9])
  {
    var frames := [DataFrame([0xC3]), DataFrame([0xA9])];
    var body: seq<Byte> := [0xC3, 0xA9];
    SplitCharacter();
    AssembleFirstFault(frames, 0);
    assert frames[1..][1..] == [];
    assert DataBytes(frames) == body;
    assert NoFrameError(frames);
  }

  /** `request_base_tree`: the request sent and the body handed to the JSON decoder. */
  method RequestBaseTree(repo: string, response: Response)
    returns (req: HttpRequest, body: Result<seq<Byte>, ClientError>)
    ensures req.verb == Get && req.uri == BaseTreeTarget(repo) && req.body == []
    ensures response.SendFailed? ==> body == Err(SendError)
    ensures response.Received? ==> body == Assemble(response.frames)
  {
    req := FormRequestTo(BaseTreeTarget(repo));
    body := Request(response);
  }

  /** `request_sub_tree_with_id`: the request sent and the body handed to the JSON decoder. */
  method RequestSubTreeWithId(repo: string, id: string, response: Response)
    returns (req: HttpRequest, body: Result<seq<Byte>, ClientError>)
    ensures req.verb == Get && req.uri == SubTreeTarget(repo, id) && req.body == []
    ensures response.SendFailed? ==> body == Err(SendError)
    ensures response.Received? ==> body == Assemble(response.frames)
  {
    req := FormRequestTo(SubTreeTarget(repo, id));
    body := Request(response);
  }

  /** `request_file_content`: the raw body is the result, without parsing. */
  method RequestFileContent(repo: string, id: string, response: Response)
    returns (req: HttpRequest, content: Result<seq<Byte>, ClientError>)
    ensures req.verb == Get && req.uri == FileContentTarget(repo, id) && req.body == []
    ensures response.SendFailed? ==> content == Err(SendError)
    ensures response.Received? ==> content == Assemble(response.frames)
  {
    req := FormRequestTo(FileContentTarget(repo, id));
    content := Request(response);
  }

  /** The three endpoints never share a target. */
  lemma TargetsDistinct(repo1: string, repo2: string, id1: string, id2: string)
    ensures BaseTreeTarget(repo1) != SubTreeTarget(repo2, id2)
    ensures BaseTreeTarget(repo1) != FileContentTarget(repo2, id2)
    ensures SubTreeTarget(repo1, id1) != FileContentTarget(repo2, id2)
  {
    var b, s, s', c := BaseTreeTarget(repo1), SubTreeTarget(repo2, id2),
                       SubTreeTarget(repo1, id1), FileContentTarget(repo2, id2);
    assert b[13] == 'r' && s[13] == 'o';
    assert b[8] == 't' && c[8] == 'o';
    assert s'[8] == 't';
  }

  /** A listing target names one repository. */
  lemma BaseTreeTargetInjective(repo1: string, repo2: string)
    requires BaseTreeTarget(repo1) == BaseTreeTarget(repo2)
    ensures repo1 == repo2
  {
    var p := "/api/v1/tree?repo_path=/projects/";
    assert repo1 == BaseTreeTarget(repo1)[|p|..];
    assert repo2 == BaseTreeTarget(repo2)[|p|..];
  }

  const RepoSeparator := "&repo_path=/projects/"

  /** The position of the first `c` in `s`, or `|s|` when there is none. */
  function FirstIndexOf(s: string, c: char): (k: nat)
    ensures k <= |s|
  {
    if |s| == 0 || s[0] == c then 0 else 1 + FirstIndexOf(s[1..], c)
  }

  lemma {:induction false} FirstIndexOfAppend(a: string, b: string, c: char)
    requires c !in a
    ensures FirstIndexOf(a + b, c) == |a| + FirstIndexOf(b, c)
  {
    if |a| > 0 {
      assert (a + b)[1..] == a[1..] + b;
      FirstIndexOfAppend(a[1..], b, c);
    } else {
      assert a + b == b;
    }
  }

  /** In `prefix + id + RepoSeparator + repo`, the first `&` ends the id. */
  lemma QueryIdEnd(prefix: string, id: string, repo: string)
    requires '&' !in prefix && '&' !in id
    ensures FirstIndexOf(prefix + id + RepoSeparator + repo, '&') == |prefix| + |id|
  {
    FirstIndexOfAppend(prefix + id, RepoSeparator + repo, '&');
    assert prefix + id + RepoSeparator + repo == (prefix + id) + (RepoSeparator + repo);
  }

  /** `prefix + id + RepoSeparator + repo` determines `id` and `repo` when ids hold no `&`. */
  lemma QueryDetermined(prefix: string, id1: string, repo1: string, id2: string, repo2: string)
    requires '&' !in prefix && '&' !in id1 && '&' !in id2
    requires prefix + id1 + RepoSeparator + repo1 == prefix + id2 + RepoSeparator + repo2
    ensures id1 == id2 && repo1 == repo2
  {
    var t1 := prefix + id1 + RepoSeparator + repo1;
    var t2 := prefix + id2 + RepoSeparator + repo2;
    QueryIdEnd(prefix, id1, repo1);
    QueryIdEnd(prefix, id2, repo2);
    assert id1 == t1[|prefix|..|prefix| + |id1|];
    assert id2 == t2[|prefix|..|prefix| + |id2|];
    assert repo1 == t1[|prefix| + |id1| + |RepoSeparator|..];
    assert repo2 == t2[|prefix| + |id2| + |RepoSeparator|..];
  }

  /** A subtree target names one directory of one repository, for ids without `&`. */
  lemma SubTreeTargetInjective(repo1: string, id1: string, repo2: string, id2: string)
    requires '&' !in id1 && '&' !in id2
    requires SubTreeTarget(repo1, id1) == SubTreeTarget(repo2, id2)
    ensures id1 == id2 && repo1 == repo2
  {
    QueryDetermined("/api/v1/tree?object_id=", id1, repo1, id2, repo2);
  }

  /** A content target names one file of one repository, for ids without `&`. */
  lemma FileContentTargetInjective(repo1: string, id1: string, repo2: string, id2: string)
    requires '&' !in id1 && '&' !in id2
    requires FileContentTarget(repo1, id1) == FileContentTarget(repo2, id2)
    ensures id1 == id2 && repo1 == repo2
  {
    QueryDetermined("/api/v1/object?object_id=", id1, repo1, id2, repo2);
  }

  /**
   * Without that restriction two different (repository, id) pairs share a
   * target: an id that carries its own `&repo_path=/projects/` parameter
   * reads the same as a shorter id with a longer repository name.
   */
  lemma {:induction false} SubTreeTargetAmbiguous(a: string, b: string, c: string)
    ensures (b, a + RepoSeparator + c) != (c + RepoSeparator + b, a)
    ensures SubTreeTarget(b, a + RepoSeparator + c) == SubTreeTarget(c + RepoSeparator + b, a)
  {
    var p := "/api/v1/tree?object_id=";
    assert p + (a + RepoSeparator + c) + RepoSeparator + b == p + a + RepoSeparator + (c + RepoSeparator + b);
  }
}

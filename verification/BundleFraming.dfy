/** The byte stream that `guardrail_bundle_digest` of guardrails.py hashes, and why it names one set of files only. */
module BundleFraming {
  import opened Wrappers
  import opened TextOrder

  type byte = x: int | 0 <= x < 256

  type Bytes = seq<byte>

  const LIMIT := 0x1_0000_0000_0000_0000

  datatype Node = File(content: Bytes) | Directory | Symlink(toFile: bool)

  /** What lies under the directory, by path relative to it. */
  type Tree = map<string, Node>

  datatype BundleError = NotADirectory | NoConfiguration | HasSymlink | LengthOverflow

  datatype Outcome = Bundle(stream: Bytes) | Rejected(error: BundleError)

  /** A file as framed: its encoded path and its content. */
  datatype Frame = Frame(path: Bytes, content: Bytes)

  // ---- Lengths ----

  /** The last `k` base-256 digits of n, the highest first: `n.to_bytes(k, "big")`. */
  function Digits(n: nat, k: nat): (s: Bytes)
    ensures |s| == k
    decreases k
  {
    if k == 0 then [] else Digits(n / 256, k - 1) + [n % 256]
  }

  function Value(s: Bytes): (n: nat) {
    if s == [] then 0 else Value(s[..|s| - 1]) * 256 + s[|s| - 1]
  }

  function Power(k: nat): (p: nat) {
    if k == 0 then 1 else 256 * Power(k - 1)
  }

  lemma {:induction false} ValueOfDigits(n: nat, k: nat)
    requires n < Power(k)
    ensures Value(Digits(n, k)) == n
    decreases k
  {
    if k > 0 {
      assert n / 256 < Power(k - 1);
      ValueOfDigits(n / 256, k - 1);
      assert Digits(n, k)[..k - 1] == Digits(n / 256, k - 1);
    }
  }

  lemma {:induction false} DigitsOfValue(s: Bytes)
    ensures Digits(Value(s), |s|) == s && Value(s) < Power(|s|)
  {
    if s != [] {
      var high, low := s[..|s| - 1], s[|s| - 1];
      DigitsOfValue(high);
      assert Value(s) / 256 == Value(high) && Value(s) % 256 == low;
      assert s == high + [low];
    }
  }

  lemma EightBytes()
    ensures Power(8) == LIMIT
  {
    assert Power(2) == 65536;
    assert Power(4) == 65536 * 65536;
    assert Power(6) == 65536 * Power(4);
    assert Power(8) == 65536 * Power(6);
  }

  // ---- Framing and its inverse ----

  predicate Fits(frames: seq<Frame>) {
    forall f :: f in frames ==> |f.path| < LIMIT && |f.content| < LIMIT
  }

  function Chunk(b: Bytes): (s: Bytes) {
    Digits(|b|, 8) + b
  }

  function Framed(frames: seq<Frame>): (s: Bytes) {
    if frames == [] then [] else Chunk(frames[0].path) + Chunk(frames[0].content) + Framed(frames[1..])
  }

  /** A chunk and what follows it. */
  function TakeChunk(s: Bytes): (r: Option<(Bytes, Bytes)>)
    ensures r.Some? ==> |r.value.1| + 8 <= |s|
  {
    if |s| < 8 || |s| - 8 < Value(s[..8]) then None
    else
      var n := Value(s[..8]);
      Some((s[8..8 + n], s[8 + n..]))
  }

  function Unframed(s: Bytes): (r: Option<seq<Frame>>)
    decreases |s|
  {
    if s == [] then Some([])
    else
      var path := TakeChunk(s);
      if path.None? then None
      else
        var content := TakeChunk(path.value.1);
        if content.None? then None
        else
          var rest := Unframed(content.value.1);
          if rest.None? then None else Some([Frame(path.value.0, content.value.0)] + rest.value)
  }

  lemma TakeTheChunk(b: Bytes, rest: Bytes)
    requires |b| < LIMIT
    ensures TakeChunk(Chunk(b) + rest) == Some((b, rest))
  {
    EightBytes();
    ValueOfDigits(|b|, 8);
    var s := Chunk(b) + rest;
    assert s[..8] == Digits(|b|, 8);
    assert s[8..8 + |b|] == b;
    assert s[8 + |b|..] == rest;
  }

  lemma ChunkOfTaken(s: Bytes)
    requires TakeChunk(s).Some?
    ensures var (b, rest) := TakeChunk(s).value; s == Chunk(b) + rest && |b| < LIMIT
  {
    EightBytes();
    DigitsOfValue(s[..8]);
    ThreePieces(s, 8, Value(s[..8]));
  }

  lemma ThreePieces(s: Bytes, a: nat, n: nat)
    requires a + n <= |s|
    ensures s == s[..a] + s[a..a + n] + s[a + n..]
  {
  }

  /** The stream decodes back to the very files, so it can stand for no others. */
  lemma {:induction false} UnframedFramed(frames: seq<Frame>)
    requires Fits(frames)
    ensures Unframed(Framed(frames)) == Some(frames)
  {
    if frames != [] {
      var f, rest := frames[0], frames[1..];
      var tail := Chunk(f.content) + Framed(rest);
      assert Framed(frames) == Chunk(f.path) + tail;
      assert f in frames;
      UnframedFramed(rest);
      UnframedNext(f, Framed(rest), rest);
      assert frames == [f] + rest;
    }
  }

  lemma UnframedNext(f: Frame, more: Bytes, rest: seq<Frame>)
    requires |f.path| < LIMIT && |f.content| < LIMIT && Unframed(more) == Some(rest)
    ensures Unframed(Chunk(f.path) + (Chunk(f.content) + more)) == Some([f] + rest)
  {
    TakeTheChunk(f.path, Chunk(f.content) + more);
    TakeTheChunk(f.content, more);
    EightBytes();
  }

  /** Every stream that decodes is the stream of what it decodes to. */
  lemma {:induction false} FramedUnframed(s: Bytes)
    requires Unframed(s).Some?
    ensures Framed(Unframed(s).value) == s && Fits(Unframed(s).value)
    decreases |s|
  {
    if s != [] {
      var (path, tail) := TakeChunk(s).value;
      var (content, rest) := TakeChunk(tail).value;
      ChunkOfTaken(s);
      ChunkOfTaken(tail);
      FramedUnframed(rest);
      var frames := Unframed(rest).value;
      assert Unframed(s).value[1..] == frames;
      assert s == Chunk(path) + (Chunk(content) + rest);
      assert s == Chunk(path) + Chunk(content) + rest;
    }
  }

  // ---- Bundles ----

  function FilePaths(tree: Tree): (paths: set<string>) {
    set p | p in tree && tree[p].File?
  }

  function Files(tree: Tree): (files: map<string, Bytes>)
    ensures forall p :: p in files <==> p in tree && tree[p].File?
    ensures forall p :: p in files ==> files[p] == tree[p].content
  {
    map p | p in tree && tree[p].File? :: tree[p].content
  }

  predicate IsFile(tree: Tree, path: string) {
    path in tree && (tree[path].File? || (tree[path].Symlink? && tree[path].toFile))
  }

  function Frames(paths: seq<string>, files: map<string, Bytes>, encode: string -> Bytes): (frames: seq<Frame>)
    requires forall i :: 0 <= i < |paths| ==> paths[i] in files
    ensures |frames| == |paths|
  {
    seq(|paths|, i requires 0 <= i < |paths| => Frame(encode(paths[i]), files[paths[i]]))
  }

  ghost predicate Describes(stream: Bytes, files: map<string, Bytes>, encode: string -> Bytes) {
    exists paths :: DescribesIn(stream, paths, files, encode)
  }

  ghost predicate DescribesIn(stream: Bytes, paths: seq<string>, files: map<string, Bytes>, encode: string -> Bytes) {
    && Lists(paths, files.Keys) && Fits(Frames(paths, files, encode))
    && stream == Framed(Frames(paths, files, encode))
  }

  ghost predicate Injective(encode: string -> Bytes) {
    forall a, b :: encode(a) == encode(b) ==> a == b
  }

  /** Same frames, same files. */
  lemma SameFrames(a: seq<string>, files: map<string, Bytes>, b: seq<string>, others: map<string, Bytes>,
                   encode: string -> Bytes)
    requires Injective(encode) && Lists(a, files.Keys) && Lists(b, others.Keys)
    requires Frames(a, files, encode) == Frames(b, others, encode)
    ensures files == others
  {
    assert |a| == |b|;
    forall i | 0 <= i < |a|
      ensures a[i] == b[i] && files[a[i]] == others[b[i]]
    {
      assert Frames(a, files, encode)[i] == Frames(b, others, encode)[i];
    }
    assert a == b;
    assert files.Keys == others.Keys;
    forall p | p in files
      ensures files[p] == others[p]
    {
      var i :| 0 <= i < |a| && a[i] == p;
    }
  }

  lemma ListingsAgree(a: seq<string>, files: map<string, Bytes>, b: seq<string>, others: map<string, Bytes>,
                      encode: string -> Bytes)
    requires Injective(encode) && Lists(a, files.Keys) && Lists(b, others.Keys)
    requires Fits(Frames(a, files, encode)) && Fits(Frames(b, others, encode))
    ensures Framed(Frames(a, files, encode)) == Framed(Frames(b, others, encode)) <==> files == others
  {
    UnframedFramed(Frames(a, files, encode));
    UnframedFramed(Frames(b, others, encode));
    if Frames(a, files, encode) == Frames(b, others, encode) {
      SameFrames(a, files, b, others, encode);
    }
    if files == others {
      OneListing(a, b, files.Keys);
    }
  }

  /** Two bundles have the same stream exactly when they hold the same files under the same paths. */
  lemma StreamNamesFiles(stream: Bytes, files: map<string, Bytes>, other: Bytes, others: map<string, Bytes>,
                         encode: string -> Bytes)
    requires Injective(encode) && Describes(stream, files, encode) && Describes(other, others, encode)
    ensures stream == other <==> files == others
  {
    var a :| DescribesIn(stream, a, files, encode);
    var b :| DescribesIn(other, b, others, encode);
    ListingsAgree(a, files, b, others, encode);
  }

  /** Every path and every content has a length of eight bytes. */
  predicate AllFit(files: map<string, Bytes>, encode: string -> Bytes) {
    forall p :: p in files ==> |encode(p)| < LIMIT && |files[p]| < LIMIT
  }

  lemma FitsIsAllFit(paths: seq<string>, files: map<string, Bytes>, encode: string -> Bytes)
    requires Lists(paths, files.Keys)
    ensures Fits(Frames(paths, files, encode)) <==> AllFit(files, encode)
  {
    var frames := Frames(paths, files, encode);
    if Fits(frames) {
      forall p | p in files
        ensures |encode(p)| < LIMIT && |files[p]| < LIMIT
      {
        var i :| 0 <= i < |paths| && paths[i] == p;
        assert frames[i] in frames;
      }
    }
  }

  /** `guardrail_bundle_digest` up to the hash: checks, then the chunks of every file in path order. */
  method GuardrailBundle(root: Option<Tree>, encode: string -> Bytes) returns (r: Outcome)
    ensures root.None? <==> r == Rejected(NotADirectory)
    ensures root.Some? ==>
              && (r == Rejected(NoConfiguration) <==>
                  !IsFile(root.value, "config.yml") && !IsFile(root.value, "config.yaml"))
              && (r == Rejected(NoConfiguration) <==>
                  forall name :: name in root.value && (name == "config.yml" || name == "config.yaml") ==>
                    !root.value[name].File? && !(root.value[name].Symlink? && root.value[name].toFile))
              && (r == Rejected(HasSymlink) <==>
                    && (IsFile(root.value, "config.yml") || IsFile(root.value, "config.yaml"))
                    && exists p :: p in root.value && root.value[p].Symlink?)
              && (r == Rejected(LengthOverflow) <==>
                    && (IsFile(root.value, "config.yml") || IsFile(root.value, "config.yaml"))
                    && (forall p :: p in root.value ==> !root.value[p].Symlink?)
                    && !AllFit(Files(root.value), encode))
              && (r.Bundle? ==> Describes(r.stream, Files(root.value), encode))
  {
    if root.None? {
      return Rejected(NotADirectory);
    }
    var tree := root.value;
    if !IsFile(tree, "config.yml") && !IsFile(tree, "config.yaml") {
      return Rejected(NoConfiguration);
    }
    if exists p :: p in tree && tree[p].Symlink? {
      return Rejected(HasSymlink);
    }
    var paths := Sorted(FilePaths(tree));
    var fits, stream := UpdateAll(paths, Files(tree), encode);
    FitsIsAllFit(paths, Files(tree), encode);
    if !fits {
      return Rejected(LengthOverflow);
    }
    assert DescribesIn(stream, paths, Files(tree), encode);
    return Bundle(stream);
  }

  /** The loop over the files; `stream` is all that the hash has been fed. */
  method UpdateAll(paths: seq<string>, files: map<string, Bytes>, encode: string -> Bytes)
    returns (fits: bool, stream: Bytes)
    requires forall i :: 0 <= i < |paths| ==> paths[i] in files
    ensures fits == Fits(Frames(paths, files, encode))
    ensures fits ==> stream == Framed(Frames(paths, files, encode))
  {
    stream := [];
    ghost var frames := Frames(paths, files, encode);
    for i := 0 to |paths|
      invariant Fits(frames[..i]) && stream == Framed(frames[..i])
    {
      fits, stream := Update(stream, encode(paths[i]), files[paths[i]]);
      if !fits {
        assert frames[i] in frames;
        return;
      }
      FramedNext(frames, i);
    }
    assert frames[..|paths|] == frames;
    fits := true;
  }

  method Update(before: Bytes, path: Bytes, content: Bytes) returns (fits: bool, stream: Bytes)
    ensures fits == (|path| < LIMIT && |content| < LIMIT)
    ensures fits ==> stream == before + (Chunk(path) + Chunk(content))
  {
    if |path| >= LIMIT || |content| >= LIMIT {
      return false, before;
    }
    stream := before + Digits(|path|, 8);
    stream := stream + path;
    stream := stream + Digits(|content|, 8);
    stream := stream + content;
    fits := true;
    FourPieces(before, Digits(|path|, 8), path, Digits(|content|, 8), content);
  }

  lemma FourPieces(before: Bytes, a: Bytes, b: Bytes, c: Bytes, d: Bytes)
    ensures before + a + b + c + d == before + ((a + b) + (c + d))
  {
    Associates(before, a, b);
    Associates(before + (a + b), c, d);
    Associates(before, a + b, c + d);
  }

  lemma FramedNext(frames: seq<Frame>, i: nat)
    requires i < |frames|
    ensures Framed(frames[..i + 1]) == Framed(frames[..i]) + (Chunk(frames[i].path) + Chunk(frames[i].content))
    ensures Fits(frames[..i + 1]) <==> Fits(frames[..i]) && Fits([frames[i]])
  {
    assert frames[..i + 1] == frames[..i] + [frames[i]];
    FramedAppend(frames[..i], frames[i]);
  }

  lemma {:induction false} FramedAppend(frames: seq<Frame>, f: Frame)
    ensures Framed(frames + [f]) == Framed(frames) + (Chunk(f.path) + Chunk(f.content))
  {
    if frames == [] {
      assert [f][1..] == [] && frames + [f] == [f];
    } else {
      FramedAppend(frames[1..], f);
      assert (frames + [f])[1..] == frames[1..] + [f];
      Associates(Chunk(frames[0].path) + Chunk(frames[0].content), Framed(frames[1..]),
                 Chunk(f.path) + Chunk(f.content));
    }
  }

  lemma Associates(a: Bytes, b: Bytes, c: Bytes)
    ensures a + (b + c) == a + b + c
  {
  }
}

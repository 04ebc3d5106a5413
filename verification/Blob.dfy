/** Where a resource's bytes live (src/blob.rs). */
module Blob {
  import opened Wrappers
  import opened Paths

  const MAX_SEGMENT_BYTES := 255
  const MAX_PATH_BYTES := 1024

  /** The object store's own segment encoding (`PathPart`), of which only its faithfulness matters here. */
  datatype Encoding = Encoding(segment: string -> string) {
    ghost predicate Valid() {
      (forall x, y :: segment(x) == segment(y) ==> x == y)
      && (forall x :: x != "" ==> segment(x) != "" && SlashFree(segment(x)))
    }
  }

  function TrimStart(path: string): string {
    if path != "" && path[0] == '/' then TrimStart(path[1..]) else path
  }

  /** `Path::from`: empty segments are dropped, the others encoded. */
  function EncodeAll(enc: Encoding, segments: seq<string>): (parts: seq<string>) {
    if segments == [] then []
    else (if segments[0] == "" then [] else [enc.segment(segments[0])]) + EncodeAll(enc, segments[1..])
  }

  /** `BlobKey::of`. */
  function KeyOf(enc: Encoding, path: string): Option<string> {
    var rel := TrimStart(path);
    if EndsWith(rel, "/") then None
    else
      var parts := EncodeAll(enc, Split(rel));
      var key := Join(parts);
      if |key| > MAX_PATH_BYTES then None
      else if exists i :: 0 <= i < |parts| && |parts[i]| > MAX_SEGMENT_BYTES then None
      else Some(key)
  }

  lemma {:induction false} EncodeOrdinary(enc: Encoding, segments: seq<string>)
    requires enc.Valid() && forall x :: x in segments ==> Ordinary(x)
    ensures var parts := EncodeAll(enc, segments);
            |parts| == |segments| && forall i :: 0 <= i < |parts| ==> parts[i] == enc.segment(segments[i])
    ensures forall x :: x in EncodeAll(enc, segments) ==> x != "" && SlashFree(x)
  {
    if segments != [] {
      assert Ordinary(segments[0]);
      EncodeOrdinary(enc, segments[1..]);
    }
  }

  lemma {:induction false} JoinNonEmpty(parts: seq<string>)
    requires parts != [] && parts[0] != ""
    ensures Join(parts) != ""
  {
  }

  /** The shape of a key: off the root, the encoded segments joined; the root alone has the empty key. */
  lemma KeyShape(enc: Encoding, path: string) returns (segments: seq<string>)
    requires enc.Valid() && "/" <= path && Stable(path) && KeyOf(enc, path).Some?
    ensures forall x :: x in segments ==> Ordinary(x) && SlashFree(x)
    ensures path == "/" + Join(segments)
    ensures KeyOf(enc, path) == Some(Join(EncodeAll(enc, segments)))
    ensures segments == [] <==> path == "/"
  {
    if path == "/" {
      segments := [];
      assert TrimStart(path) == "" && EncodeAll(enc, [""]) == [];
    } else {
      var init, slash := StableSegments(path);
      OrdinaryHead(init);
      assert path[1..][0] == Join(init)[0];
      assert TrimStart(path) == path[1..];
      assert path[|path| - 1..] == path[1..][|path[1..]| - 1..];
      segments := init;
    }
  }

  lemma OrdinaryHead(init: seq<string>)
    requires init != [] && forall x :: x in init ==> Ordinary(x) && SlashFree(x)
    ensures Join(init) != "" && Join(init)[0] != '/'
  {
    assert init[0] in init;
    assert init[0][0] in init[0];
    assert Join(init)[0] == init[0][0];
  }

  /** Two URLs the pod can store bytes for never share an object. */
  lemma DistinctUrlsDistinctKeys(enc: Encoding, p: string, q: string)
    requires enc.Valid() && "/" <= p && Stable(p) && "/" <= q && Stable(q)
    requires KeyOf(enc, p).Some? && KeyOf(enc, p) == KeyOf(enc, q)
    ensures p == q
  {
    var a := KeyShape(enc, p);
    var b := KeyShape(enc, q);
    EncodeOrdinary(enc, a);
    EncodeOrdinary(enc, b);
    var x, y := EncodeAll(enc, a), EncodeAll(enc, b);
    if a != [] && b != [] {
      SplitJoin(x);
      SplitJoin(y);
      assert x == y;
      assert forall i :: 0 <= i < |a| ==> enc.segment(a[i]) == x[i] && enc.segment(b[i]) == x[i];
      assert a == b;
    } else if a != [] {
      JoinNonEmpty(x);
    } else if b != [] {
      JoinNonEmpty(y);
    }
  }

  /** A container has no key, except that trimming turns the root into the empty key. */
  lemma ContainersHaveNoKey(enc: Encoding, path: string)
    requires enc.Valid() && "/" <= path && Stable(path) && EndsWith(path, "/")
    ensures KeyOf(enc, path) == if path == "/" then Some("") else None
  {
    if path == "/" {
      assert TrimStart(path) == "" && EncodeAll(enc, Split("")) == [];
    } else {
      var init, slash := StableSegments(path);
      OrdinaryHead(init);
      assert path[1..][0] == Join(init)[0];
      assert TrimStart(path) == path[1..];
      assert path[1..][|path[1..]| - 1..] == "/";
    }
  }

  /** Every segment of the path, encoded. */
  function EncodedSegments(enc: Encoding, path: string): seq<string>
    requires "/" <= path
  {
    var segments := Split(path[1..]);
    seq(|segments|, i requires 0 <= i < |segments| => enc.segment(segments[i]))
  }

  /** A path can be stored exactly when it is the root, or is no container's and keeps both of the object
      store's limits once encoded; the key is then the encoded path. */
  lemma KeyIffFits(enc: Encoding, path: string)
    requires enc.Valid() && "/" <= path && Stable(path)
    ensures KeyOf(enc, path) ==
      if path == "/" then Some("")
      else if EndsWith(path, "/") then None
      else
        var parts := EncodedSegments(enc, path);
        if |Join(parts)| <= 1024 && forall i :: 0 <= i < |parts| ==> |parts[i]| <= 255 then Some(Join(parts)) else None
  {
    if EndsWith(path, "/") {
      ContainersHaveNoKey(enc, path);
    } else {
      var init, slash := StableSegments(path);
      OrdinaryHead(init);
      assert path[1..][0] == Join(init)[0];
      assert TrimStart(path) == path[1..];
      assert path[|path| - 1..] == path[1..][|path[1..]| - 1..];
      EncodeOrdinary(enc, init);
      assert EncodeAll(enc, init) == EncodedSegments(enc, path);
    }
  }
}

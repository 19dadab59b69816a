/**
 * `ParseUrlParams` of examples/navigate.ts: the names of the parameters a route
 * template requires, which are its path segments that start with a colon.
 */
module Navigate {

  /** The position of the first occurrence of c. */
  function FirstIndex(s: string, c: char): (i: nat)
    requires c in s
    ensures i < |s| && s[i] == c && c !in s[..i]
  {
    if s[0] == c then 0
    else
      var i := FirstIndex(s[1..], c);
      assert s[1..][..i] == s[1..i + 1];
      assert s[..i + 1] == [s[0]] + s[1..i + 1];
      i + 1
  }

  /**
   * Splits at the first `/` and unites the keys of both sides (the source intersects
   * the two object types, which unites their keys); a segment `:name` requires `name`,
   * and any other segment requires nothing.
   */
  function ParseUrlParams(url: string): (keys: set<string>)
    ensures '/' !in url && |url| > 0 && url[0] == ':' ==> keys == {url[1..]}
    ensures '/' !in url && !(|url| > 0 && url[0] == ':') ==> keys == {}
    decreases |url|
  {
    if '/' in url then
      var i := FirstIndex(url, '/');
      ParseUrlParams(url[..i]) + ParseUrlParams(url[i + 1..])
    else if |url| > 0 && url[0] == ':' then {url[1..]}
    else {}
  }

  /** Segments glued back together with `/` between them. */
  function Join(segments: seq<string>): (url: string)
    requires |segments| >= 1
  {
    if |segments| == 1 then segments[0] else segments[0] + "/" + Join(segments[1..])
  }

  /** The keys that a list of segments asks for: each `:name` segment gives `name`. */
  function SegmentKeys(segments: seq<string>): set<string>
  {
    set i | 0 <= i < |segments| && |segments[i]| > 0 && segments[i][0] == ':' :: segments[i][1..]
  }

  /** Splits at every `/`. */
  function Split(url: string): (segments: seq<string>)
    ensures |segments| >= 1 && Join(segments) == url
    ensures forall i :: 0 <= i < |segments| ==> '/' !in segments[i]
    decreases |url|
  {
    if '/' in url then
      var i := FirstIndex(url, '/');
      assert url == url[..i] + "/" + url[i + 1..];
      [url[..i]] + Split(url[i + 1..])
    else [url]
  }

  lemma SegmentKeysSingle(segment: string)
    ensures SegmentKeys([segment]) == if |segment| > 0 && segment[0] == ':' then {segment[1..]} else {}
  {
    if |segment| > 0 && segment[0] == ':' {
      assert [segment][0] == segment;
    }
  }

  lemma SegmentKeysCons(segments: seq<string>)
    requires |segments| >= 1
    ensures SegmentKeys(segments) == SegmentKeys([segments[0]]) + SegmentKeys(segments[1..])
  {
    var rest := segments[1..];
    forall k | k in SegmentKeys(segments) ensures k in SegmentKeys([segments[0]]) + SegmentKeys(rest) {
      var i :| 0 <= i < |segments| && |segments[i]| > 0 && segments[i][0] == ':' && k == segments[i][1..];
      if i > 0 {
        assert rest[i - 1] == segments[i];
      } else {
        assert [segments[0]][0] == segments[i];
      }
    }
    forall k | k in SegmentKeys(rest) ensures k in SegmentKeys(segments) {
      var i :| 0 <= i < |rest| && |rest[i]| > 0 && rest[i][0] == ':' && k == rest[i][1..];
      assert segments[i + 1] == rest[i];
    }
  }

  /**
   * However the route is cut into slash-free segments, the required keys are those of
   * its `:name` segments.
   */
  lemma {:induction false} ParseUrlParamsBySegments(segments: seq<string>)
    requires |segments| >= 1
    requires forall i :: 0 <= i < |segments| ==> '/' !in segments[i]
    ensures ParseUrlParams(Join(segments)) == SegmentKeys(segments)
    decreases |segments|
  {
    var head := segments[0];
    if |segments| == 1 {
      SegmentKeysSingle(head);
    } else {
      var url := Join(segments);
      var rest := Join(segments[1..]);
      assert url == head + "/" + rest;
      assert url[|head|] == '/';
      assert '/' in url;
      var i := FirstIndex(url, '/');
      assert i == |head| by {
        assert url[..|head|] == head;
      }
      assert url[..i] == head;
      assert url[i + 1..] == rest;
      ParseUrlParamsBySegments(segments[1..]);
      SegmentKeysCons(segments);
      SegmentKeysSingle(head);
    }
  }

  /** The keys of a route are the `:name` segments of the route split on every `/`. */
  lemma ParseUrlParamsIsSegmentKeys(url: string)
    ensures ParseUrlParams(url) == SegmentKeys(Split(url))
  {
    ParseUrlParamsBySegments(Split(url));
  }

  /** A params object is accepted when it has every required key. */
  predicate AcceptsParams(url: string, given: set<string>)
  {
    ParseUrlParams(url) <= given
  }

  /** The routes used with `navigate`. */
  lemma BlogPostSample(url: string)
    requires url == "/blog/:postId"
    ensures ParseUrlParams(url) == {"postId"}
    ensures AcceptsParams(url, {"postId"})
    ensures !AcceptsParams(url, {"someRandomKey"})
  {
    var segments := ["", "blog", ":postId"];
    assert Join(segments) == url;
    ParseUrlParamsBySegments(segments);
    assert SegmentKeys(segments) == {"postId"} by {
      assert segments[2][1..] == "postId";
    }
  }

  lemma BlogCommentSample(url: string)
    requires url == "/blog/:postId/comment/:commentId"
    ensures ParseUrlParams(url) == {"postId", "commentId"}
    ensures AcceptsParams(url, {"postId", "commentId"})
    ensures !AcceptsParams(url, {"postId"})
  {
    BlogCommentSegments(url);
    ParseUrlParamsBySegments(["", "blog", ":postId", "comment", ":commentId"]);
  }

  lemma BlogCommentSegments(url: string)
    requires url == "/blog/:postId/comment/:commentId"
    ensures Join(["", "blog", ":postId", "comment", ":commentId"]) == url
    ensures forall i :: 0 <= i < 5 ==> '/' !in ["", "blog", ":postId", "comment", ":commentId"][i]
    ensures SegmentKeys(["", "blog", ":postId", "comment", ":commentId"]) == {"postId", "commentId"}
  {
    var segments := ["", "blog", ":postId", "comment", ":commentId"];
    assert segments[2][1..] == "postId";
    assert segments[4][1..] == "commentId";
  }
}

/** Credential detection through layers of encoding, with the matcher and the decoders left open. */
module Decoding {
  import opened JsText

  const MAX_RECURSIVE_DEPTH: nat := 4
  const MAX_RECURSIVE_INPUT_SIZE: nat := 65536

  /** `chunks` are the base64-looking chunks of a text; a decoder that throws gives nothing. */
  datatype Codec = Codec(
    contains: Text -> bool,
    chunks: Text -> seq<Text>,
    base64: Text -> Option<Text>,
    percentEncoded: Text -> bool,
    urlDecode: Text -> Option<Text>)

  /** The texts that one decoding step makes of a text. */
  ghost predicate Decodes(c: Codec, text: Text, next: Text) {
    || (exists chunk :: chunk in c.chunks(text) && c.base64(chunk) == Some(next))
    || (c.percentEncoded(text) && c.urlDecode(text) == Some(next))
  }

  /** The chunk decodes to a text that is neither empty nor the chunk itself. */
  predicate Worthwhile(c: Codec, chunk: Text, next: Text) {
    c.base64(chunk) == Some(next) && next != chunk && next != []
  }

  /** The steps the detector follows: it skips decodings that are empty or change nothing. */
  ghost predicate Follows(c: Codec, text: Text, next: Text) {
    || (exists chunk :: chunk in c.chunks(text) && Worthwhile(c, chunk, next))
    || (c.percentEncoded(text) && c.urlDecode(text) == Some(next) && next != text)
  }

  /** What the detector answers. */
  ghost predicate Detects(c: Codec, text: Text, depth: nat)
    decreases MAX_RECURSIVE_DEPTH - depth
  {
    || depth >= MAX_RECURSIVE_DEPTH
    || |text| > MAX_RECURSIVE_INPUT_SIZE
    || c.contains(text)
    || exists next :: Follows(c, text, next) && Detects(c, next, depth + 1)
  }

  method RecursiveContainsCredential(c: Codec, text: Text, depth: nat) returns (r: bool)
    ensures r <==> Detects(c, text, depth)
    decreases MAX_RECURSIVE_DEPTH - depth
  {
    if depth >= MAX_RECURSIVE_DEPTH || |text| > MAX_RECURSIVE_INPUT_SIZE {
      return true;
    }
    if c.contains(text) {
      return true;
    }
    var chunks := c.chunks(text);
    for i := 0 to |chunks|
      invariant forall j, next :: 0 <= j < i && Worthwhile(c, chunks[j], next) ==> !Detects(c, next, depth + 1)
    {
      var decoded := c.base64(chunks[i]);
      if decoded.Some? && decoded.value != chunks[i] && decoded.value != [] {
        var found := RecursiveContainsCredential(c, decoded.value, depth + 1);
        if found {
          assert Worthwhile(c, chunks[i], decoded.value) && Follows(c, text, decoded.value);
          return true;
        }
      }
    }
    if c.percentEncoded(text) {
      var decoded := c.urlDecode(text);
      if decoded.Some? && decoded.value != text {
        var found := RecursiveContainsCredential(c, decoded.value, depth + 1);
        if found {
          assert Follows(c, text, decoded.value);
          return true;
        }
      }
    }
    r := false;
  }

  /** A chain of texts, each one the detector's step from the text before it. */
  ghost predicate Followed(c: Codec, path: seq<Text>) {
    path != [] && forall i :: 0 < i < |path| ==> Follows(c, path[i - 1], path[i])
  }

  /** A chain of decodings, whether the detector follows them or not. */
  ghost predicate Decoded(c: Codec, path: seq<Text>) {
    path != [] && forall i :: 0 < i < |path| ==> Decodes(c, path[i - 1], path[i])
  }

  /** The end of a chain makes the detector stop with a yes: it matches, is too long, or is too deep. */
  ghost predicate Alarming(c: Codec, path: seq<Text>, depth: nat)
    requires path != []
  {
    var text := path[|path| - 1];
    c.contains(text) || |text| > MAX_RECURSIVE_INPUT_SIZE || depth + |path| - 1 >= MAX_RECURSIVE_DEPTH
  }

  lemma {:induction false} ChainDetected(c: Codec, path: seq<Text>, depth: nat)
    requires Followed(c, path) && Alarming(c, path, depth)
    ensures Detects(c, path[0], depth)
    decreases |path|
  {
    if |path| > 1 && depth < MAX_RECURSIVE_DEPTH {
      assert forall i :: 0 <= i < |path| - 1 ==> path[1..][i] == path[i + 1];
      ChainDetected(c, path[1..], depth + 1);
      assert Follows(c, path[0], path[1]);
    }
  }

  lemma {:induction false} DetectionHasChain(c: Codec, text: Text, depth: nat) returns (path: seq<Text>)
    requires Detects(c, text, depth)
    ensures Followed(c, path) && path[0] == text && Alarming(c, path, depth)
    decreases MAX_RECURSIVE_DEPTH - depth
  {
    if depth >= MAX_RECURSIVE_DEPTH || |text| > MAX_RECURSIVE_INPUT_SIZE || c.contains(text) {
      path := [text];
    } else {
      var next :| Follows(c, text, next) && Detects(c, next, depth + 1);
      var rest := DetectionHasChain(c, next, depth + 1);
      path := [text] + rest;
      assert forall i :: 0 < i < |path| ==> path[i] == rest[i - 1];
    }
  }

  /** The detector answers no exactly when every chain of followed decodings is shorter than the depth
      left and passes over no text that matches or is too long. */
  lemma ClearIffEveryChainClear(c: Codec, text: Text, depth: nat)
    ensures !Detects(c, text, depth) <==>
      forall path :: Followed(c, path) && path[0] == text ==> !Alarming(c, path, depth)
  {
    if Detects(c, text, depth) {
      var path := DetectionHasChain(c, text, depth);
    }
    forall path | Followed(c, path) && path[0] == text && Alarming(c, path, depth) ensures Detects(c, text, depth) {
      ChainDetected(c, path, depth);
    }
  }

  /** Starting deeper only adds alarms. */
  lemma DeeperIsStricter(c: Codec, text: Text, depth: nat, deeper: nat)
    requires depth <= deeper && Detects(c, text, depth)
    ensures Detects(c, text, deeper)
  {
    var path := DetectionHasChain(c, text, depth);
    ChainDetected(c, path, deeper);
  }

  /** Base64 decoding shortens, and nothing comes of an empty text. */
  ghost predicate Sensible(c: Codec) {
    && (forall chunk, next :: c.base64(chunk) == Some(next) && chunk != [] ==> |next| < |chunk|)
    && (forall text, chunk :: chunk in c.chunks(text) ==> chunk != [])
    && !c.contains([]) && c.chunks([]) == [] && !c.percentEncoded([])
  }

  lemma DecodesFollowed(c: Codec, before: Text, next: Text)
    requires Sensible(c) && Decodes(c, before, next) && next != [] && next != before
    ensures Follows(c, before, next)
  {
    if chunk :| chunk in c.chunks(before) && c.base64(chunk) == Some(next) {
      assert Worthwhile(c, chunk, next);
    }
  }

  lemma FollowedSnoc(c: Codec, path: seq<Text>, next: Text)
    requires Followed(c, path) && Follows(c, path[|path| - 1], next)
    ensures Followed(c, path + [next])
  { }

  /** Every text that decoding makes, however many steps it takes, is empty or was followed. */
  lemma {:induction false} DecodedWasFollowed(c: Codec, path: seq<Text>) returns (followed: seq<Text>)
    requires Sensible(c) && Decoded(c, path)
    ensures path[|path| - 1] == []
      || (Followed(c, followed) && followed[0] == path[0] && followed[|followed| - 1] == path[|path| - 1])
  {
    followed := path;
    if |path| > 1 {
      var before, next := path[|path| - 2], path[|path| - 1];
      assert forall i :: 0 <= i < |path| - 1 ==> path[..|path| - 1][i] == path[i];
      var shorter := DecodedWasFollowed(c, path[..|path| - 1]);
      assert Decodes(c, before, next);
      if next != [] && before != [] {
        if next == before {
          followed := shorter;
        } else {
          DecodesFollowed(c, before, next);
          followed := shorter + [next];
          FollowedSnoc(c, shorter, next);
        }
      }
    }
  }

  /** A no is sound: no text that any number of base64 or URL decodings makes of it matches. */
  lemma ClearIsSound(c: Codec, text: Text, path: seq<Text>)
    requires Sensible(c) && !Detects(c, text, 0)
    requires Decoded(c, path) && path[0] == text
    ensures !c.contains(path[|path| - 1]) && |path[|path| - 1]| <= MAX_RECURSIVE_INPUT_SIZE
  {
    var followed := DecodedWasFollowed(c, path);
    if path[|path| - 1] != [] {
      ClearIffEveryChainClear(c, text, 0);
      assert !Alarming(c, followed, 0);
    }
  }
}

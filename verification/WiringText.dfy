/** scripts/conductor_wiring.py: the texts of a configuration, with the harness root put in and the files they name. */
module WiringText {
  import opened JsonMerge

  // ----- Replacing a token -----

  /** str.replace: from the left, each occurrence that starts after the one before it. */
  function Replace(text: string, token: string, root: string): string
    requires token != ""
    decreases |text|
  {
    if token <= text then root + Replace(text[|token|..], token, root)
    else if text == "" then ""
    else [text[0]] + Replace(text[1..], token, root)
  }

  lemma ReplaceCopies(c: char, rest: string, token: string, root: string, text: string)
    requires text == [c] + rest && token != "" && !(token <= text)
    ensures Replace(text, token, root) == [c] + Replace(rest, token, root)
  {
    assert text[1..] == rest;
  }

  ghost predicate Has(text: string, token: string) {
    exists i :: 0 <= i <= |text| && token <= text[i..]
  }

  lemma HasAt(text: string, token: string, i: nat)
    requires i <= |text| && token <= text[i..]
    ensures Has(text, token)
  {
  }

  /** Set between a start and an end of the token, each less than all of it, the root makes one. */
  ghost predicate Fuses(token: string, root: string) {
    exists i, j :: 0 <= i < |token| && 0 < j <= |token| && Has(token[..i] + root + token[j..], token)
  }

  lemma FusesWith(token: string, root: string, i: nat, j: nat, at: nat)
    requires i < |token| && 0 < j <= |token|
    requires at <= |token[..i] + root + token[j..]| && token <= (token[..i] + root + token[j..])[at..]
    ensures Fuses(token, root)
  {
    HasAt(token[..i] + root + token[j..], token, at);
  }

  /** If the rest of a token comes out, it was there, or the root supplied a part of it. */
  lemma {:induction false} Continued(text: string, token: string, root: string, i: nat)
    requires 0 < i <= |token| && token[i..] <= Replace(text, token, root)
    ensures token[i..] <= text || Fuses(token, root)
    decreases |text|
  {
    if i == |token| {
    } else if token <= text {
      RootContinues(token, root, Replace(text[|token|..], token, root), i);
    } else {
      Continued(text[1..], token, root, i + 1);
    }
  }

  lemma RootContinues(token: string, root: string, rest: string, i: nat)
    requires 0 < i < |token| && token[i..] <= root + rest
    ensures Fuses(token, root)
  {
    var end := token[i..];
    if |root| >= |end| {
      assert end <= root;
      assert token[..i] + end == token && token <= token[..i] + root + token[|token|..];
      FusesWith(token, root, i, |token|, 0);
    } else {
      var j := i + |root|;
      assert root == end[..|root|] == token[i..j];
      assert token[..i] + root + token[j..] == token;
      FusesWith(token, root, i, j, 0);
    }
  }

  lemma RootThenRest(token: string, root: string, rest: string, at: nat)
    requires token != "" && at <= |root + rest| && token <= (root + rest)[at..]
    ensures Fuses(token, root) || Has(rest, token)
  {
    if at >= |root| {
      assert (root + rest)[at..] == rest[at - |root|..];
      HasAt(rest, token, at - |root|);
    } else if at + |token| <= |root| {
      assert (root + rest)[at..] == root[at..] + rest && token <= root[at..];
      assert token[..0] + root + token[|token|..] == root;
      FusesWith(token, root, 0, |token|, at);
    } else {
      var j := |root| - at;
      assert root[at..] == (root + rest)[at..][..j] == token[..j];
      assert (token[..0] + root + token[j..])[at..] == token;
      FusesWith(token, root, 0, j, at);
    }
  }

  lemma {:induction false} Survives(text: string, token: string, root: string)
    requires token != "" && Has(Replace(text, token, root), token)
    ensures Fuses(token, root)
    decreases |text|
  {
    var out := Replace(text, token, root);
    var at :| 0 <= at <= |out| && token <= out[at..];
    if token <= text {
      var rest := Replace(text[|token|..], token, root);
      RootThenRest(token, root, rest, at);
      if Has(rest, token) {
        Survives(text[|token|..], token, root);
      }
    } else {
      var rest := Replace(text[1..], token, root);
      CharThenRest(token, text[0], rest, at);
      if Has(rest, token) {
        Survives(text[1..], token, root);
      } else {
        Continued(text[1..], token, root, 1);
      }
    }
  }

  lemma CharThenRest(token: string, c: char, rest: string, at: nat)
    requires token != "" && at <= |[c] + rest| && token <= ([c] + rest)[at..]
    ensures Has(rest, token) || (token[0] == c && token[1..] <= rest)
  {
    if at > 0 {
      assert ([c] + rest)[at..] == rest[at - 1..];
      HasAt(rest, token, at - 1);
    } else {
      assert token[1..] <= ([c] + rest)[1..];
    }
  }

  /** The first character does not come again. */
  predicate OneStart(token: string) {
    token != "" && forall k :: 0 < k < |token| ==> token[k] != token[0]
  }

  lemma HasInTail(text: string, token: string)
    requires text != "" && Has(text[1..], token)
    ensures Has(text, token)
  {
    var i :| 0 <= i <= |text[1..]| && token <= text[1..][i..];
    assert text[1..][i..] == text[i + 1..];
    HasAt(text, token, i + 1);
  }

  /** A text without the token is unchanged. */
  lemma {:induction false} NoTokenStays(text: string, token: string, root: string)
    requires token != "" && !Has(text, token)
    ensures Replace(text, token, root) == text
    decreases |text|
  {
    if text != "" {
      assert text[0..] == text;
      if Has(text[1..], token) {
        HasInTail(text, token);
      }
      NoTokenStays(text[1..], token, root);
    }
  }

  lemma NotAtStart(token: string, start: string, rest: string)
    requires OneStart(token) && start != "" && !Has(start, token)
    ensures !(token <= start + token + rest)
  {
    var text := start + token + rest;
    assert text[|start|] == token[0];
    if |token| <= |start| {
      assert start[0..] == start && !(token <= start[0..]);
      assert text[..|token|] == start[..|token|];
    }
  }

  /** The token is found where it stands, after any text without one. */
  lemma {:induction false} PassesOver(token: string, root: string, start: string, rest: string)
    requires OneStart(token) && !Has(start, token)
    ensures Replace(start + token + rest, token, root) == start + root + Replace(rest, token, root)
    decreases |start|
  {
    var text := start + token + rest;
    if start == "" {
      assert text[|token|..] == rest && token <= text;
      assert start + root == root;
    } else {
      var c, others := start[0], start[1..] + token + rest;
      assert text == [c] + others;
      NotAtStart(token, start, rest);
      ReplaceCopies(c, others, token, root, text);
      if Has(start[1..], token) {
        HasInTail(start, token);
      }
      PassesOver(token, root, start[1..], rest);
      Regroup(c, start[1..], root, Replace(rest, token, root), start);
    }
  }

  lemma Regroup(c: char, tail: string, middle: string, end: string, start: string)
    requires start == [c] + tail
    ensures start + middle + end == [c] + (tail + middle + end)
  {
  }

  /** Pieces of text with something between each two of them. */
  ghost function Join(pieces: seq<string>, between: string): string
    requires pieces != []
  {
    if |pieces| == 1 then pieces[0] else pieces[0] + between + Join(pieces[1..], between)
  }

  ghost predicate TokenFreePieces(pieces: seq<string>, token: string) {
    pieces != [] && forall i :: 0 <= i < |pieces| ==> !Has(pieces[i], token)
  }

  /** In a text of pieces with the token between them, the root takes the place of each token and the pieces stay. */
  lemma {:induction false} ReplaceJoins(pieces: seq<string>, token: string, root: string)
    requires OneStart(token) && TokenFreePieces(pieces, token)
    ensures Replace(Join(pieces, token), token, root) == Join(pieces, root)
    decreases |pieces|
  {
    if |pieces| == 1 {
      NoTokenStays(pieces[0], token, root);
    } else {
      ReplaceJoins(pieces[1..], token, root);
      PassesOver(token, root, pieces[0], Join(pieces[1..], token));
    }
  }

  lemma FirstAt(text: string, token: string, i: nat) returns (first: nat)
    requires i <= |text| && token <= text[i..] && token != ""
    ensures first <= |text| && token <= text[first..] && !Has(text[..first], token)
  {
    first := i;
    if Has(text[..i], token) {
      var j :| 0 <= j <= |text[..i]| && token <= text[..i][j..];
      assert text[j..] == text[..i][j..] + text[i..];
      first := FirstAt(text, token, j);
    }
  }

  /** Every text is such a text. */
  lemma {:induction false} Split(text: string, token: string) returns (pieces: seq<string>)
    requires token != ""
    ensures TokenFreePieces(pieces, token) && Join(pieces, token) == text
    decreases |text|
  {
    if i :| 0 <= i <= |text| && token <= text[i..] {
      var first := FirstAt(text, token, i);
      var rest := text[first + |token|..];
      var others := Split(rest, token);
      pieces := [text[..first]] + others;
      assert pieces[1..] == others;
      assert text == text[..first] + text[first..] && text[first..] == token + text[first..][|token|..];
      assert text[first..][|token|..] == rest;
      assert text[..first] + (token + rest) == text[..first] + token + rest;
    } else {
      pieces := [text];
    }
  }

  lemma ShortHasNone(text: string, token: string)
    requires |text| < |token|
    ensures !Has(text, token)
  {
  }

  /** A start of the token that a whole one follows is not taken for one. */
  lemma OnlyTheMiddle(token: string, root: string, i: nat, end: string)
    requires OneStart(token) && i < |token| && |end| < |token|
    ensures Replace(token[..i] + token + end, token, root) == token[..i] + root + end
  {
    ShortHasNone(token[..i], token);
    ShortHasNone(end, token);
    PassesOver(token, root, token[..i], end);
    NoTokenStays(end, token, root);
  }

  /** No text keeps a token, exactly when the root cannot make one out of a start and an end of it. */
  lemma TokensGone(token: string, root: string)
    requires OneStart(token)
    ensures (forall text :: !Has(Replace(text, token, root), token)) <==> !Fuses(token, root)
  {
    if Fuses(token, root) {
      var i, j :| 0 <= i < |token| && 0 < j <= |token| && Has(token[..i] + root + token[j..], token);
      OnlyTheMiddle(token, root, i, token[j..]);
    } else {
      forall text
        ensures !Has(Replace(text, token, root), token)
      {
        if Has(Replace(text, token, root), token) {
          Survives(text, token, root);
        }
      }
    }
  }

  /** The root ends with a start of the token. */
  ghost predicate EndsInStart(token: string, root: string) {
    exists m :: 0 < m < |token| && m <= |root| && root[|root| - m..] == token[..m]
  }

  /** A root that starts outside the token's alphabet, as an absolute path does: what is left is how it ends. */
  lemma AbsoluteRootFuses(token: string, root: string)
    requires root != "" && root[0] !in token && token != ""
    ensures Fuses(token, root) <==> Has(root, token) || EndsInStart(token, root)
  {
    if Fuses(token, root) {
      FusedAtEnd(token, root);
    }
    if Has(root, token) || EndsInStart(token, root) {
      EndFuses(token, root);
    }
  }

  lemma EndFuses(token: string, root: string)
    requires token != "" && (Has(root, token) || EndsInStart(token, root))
    ensures Fuses(token, root)
  {
    if Has(root, token) {
      var at :| 0 <= at <= |root| && token <= root[at..];
      assert token[..0] + root + token[|token|..] == root;
      FusesWith(token, root, 0, |token|, at);
    } else {
      var m :| 0 < m < |token| && m <= |root| && root[|root| - m..] == token[..m];
      var text := token[..0] + root + token[m..];
      assert text[|root| - m..] == token;
      FusesWith(token, root, 0, m, |root| - m);
    }
  }

  lemma FusedAtEnd(token: string, root: string)
    requires root != "" && root[0] !in token && Fuses(token, root)
    ensures Has(root, token) || EndsInStart(token, root)
  {
    var i, j :| 0 <= i < |token| && 0 < j <= |token| && Has(token[..i] + root + token[j..], token);
    var text := token[..i] + root + token[j..];
    var at :| 0 <= at <= |text| && token <= text[at..];
    if at <= i {
      CharOf(text, token, at, i);
      assert false;
    }
    AfterStart(token, root, token[j..], text, i, at);
  }

  lemma CharOf(text: string, token: string, at: nat, i: nat)
    requires at <= i < at + |token| && at <= |text| && token <= text[at..]
    ensures i < |text| && text[i] in token
  {
    assert text[at..][i - at] == token[i - at];
  }

  lemma AfterStart(token: string, root: string, end: string, text: string, i: nat, at: nat)
    requires i < at <= |text| && i < |token| && token <= text[at..]
    requires |end| < |token| && text == token[..i] + root + end
    ensures Has(root, token) || EndsInStart(token, root)
  {
    if at + |token| <= i + |root| {
      assert token <= root[at - i..];
    } else {
      var m := i + |root| - at;
      assert root[|root| - m..] == text[at..][..m] == token[..m];
    }
  }

  // ----- Documents -----

  const ROOT_TOKEN := "${LLAMA_HARNESS_ROOT}"

  lemma RootTokenStartsOnce()
    ensures OneStart(ROOT_TOKEN)
  {
  }

  /** substitute_harness_root: in every string, however deep; keys stay. */
  function Resolve(v: Json, root: string): Json {
    match v
    case Obj(fields) => Obj(map k | k in fields :: Resolve(fields[k], root))
    case Arr(items) => Arr(seq(|items|, i requires 0 <= i < |items| => Resolve(items[i], root)))
    case Str(text) => Str(Replace(text, ROOT_TOKEN, root))
    case _ => v
  }

  /** However the text is taken apart at its tokens, the result is the pieces with the root between them. */
  ghost predicate RootPutIn(text: string, result: string, root: string) {
    forall pieces :: TokenFreePieces(pieces, ROOT_TOKEN) && Join(pieces, ROOT_TOKEN) == text ==>
      result == Join(pieces, root)
  }

  /** The same document but for its strings, which have the root put in. */
  ghost predicate SameButRoot(v: Json, w: Json, root: string) {
    match v
    case Obj(fields) =>
      w.Obj? && w.fields.Keys == fields.Keys && forall k :: k in fields ==> SameButRoot(fields[k], w.fields[k], root)
    case Arr(items) =>
      w.Arr? && |w.items| == |items| && forall i :: 0 <= i < |items| ==> SameButRoot(items[i], w.items[i], root)
    case Str(text) => w.Str? && RootPutIn(text, w.text, root)
    case _ => w == v
  }

  lemma {:induction false} ResolvedIs(v: Json, root: string)
    ensures SameButRoot(v, Resolve(v, root), root)
    decreases v
  {
    match v
    case Obj(fields) =>
      forall k | k in fields
        ensures SameButRoot(fields[k], Resolve(fields[k], root), root)
      {
        ResolvedIs(fields[k], root);
      }
    case Arr(items) =>
      forall i | 0 <= i < |items|
        ensures SameButRoot(items[i], Resolve(items[i], root), root)
      {
        ResolvedIs(items[i], root);
      }
    case Str(text) =>
      RootTokenStartsOnce();
      forall pieces | TokenFreePieces(pieces, ROOT_TOKEN) && Join(pieces, ROOT_TOKEN) == text
        ensures Replace(text, ROOT_TOKEN, root) == Join(pieces, root)
      {
        ReplaceJoins(pieces, ROOT_TOKEN, root);
      }
    case _ =>
  }

  /** The relation leaves no choice: a text has one result. */
  lemma RootPutInOnce(text: string, one: string, other: string, root: string)
    requires RootPutIn(text, one, root) && RootPutIn(text, other, root)
    ensures one == other
  {
    var pieces := Split(text, ROOT_TOKEN);
  }

  ghost predicate TokenFree(v: Json) {
    match v
    case Obj(fields) => forall k :: k in fields ==> TokenFree(fields[k])
    case Arr(items) => forall i :: 0 <= i < |items| ==> TokenFree(items[i])
    case Str(text) => !Has(text, ROOT_TOKEN)
    case _ => true
  }

  lemma {:induction false} ResolvedIsTokenFree(v: Json, root: string)
    requires !Fuses(ROOT_TOKEN, root)
    ensures TokenFree(Resolve(v, root))
    decreases v
  {
    match v
    case Obj(fields) =>
      forall k | k in fields
        ensures TokenFree(Resolve(fields[k], root))
      {
        ResolvedIsTokenFree(fields[k], root);
      }
    case Arr(items) =>
      forall i | 0 <= i < |items|
        ensures TokenFree(Resolve(items[i], root))
      {
        ResolvedIsTokenFree(items[i], root);
      }
    case Str(text) =>
      RootTokenStartsOnce();
      TokensGone(ROOT_TOKEN, root);
      assert !Has(Replace(text, ROOT_TOKEN, root), ROOT_TOKEN);
    case _ =>
  }

  lemma {:induction false} MergedIsTokenFree(target: Fields, overlay: Fields)
    requires TokenFree(Obj(target)) && TokenFree(Obj(overlay))
    ensures TokenFree(Obj(Merge(target, overlay)))
    decreases Obj(overlay)
  {
    var merged := Merge(target, overlay);
    forall k | k in merged
      ensures TokenFree(merged[k])
    {
      if k in overlay && k in target && target[k].Obj? && overlay[k].Obj? {
        MergedIsTokenFree(target[k].fields, overlay[k].fields);
      }
    }
  }

  // ----- The files a document names -----

  const FILE_OPENS := "{file:"

  /** The text up to the next closing brace, or all of it. */
  function ToBrace(text: string): string {
    if text == "" || text[0] == '}' then "" else [text[0]] + ToBrace(text[1..])
  }

  /** What the references in a string name, from the left. */
  function FileReferences(text: string): seq<string>
    decreases |text|
  {
    if text == "" then []
    else
      var name := if FILE_OPENS <= text then ToBrace(text[|FILE_OPENS|..]) else "";
      if name != "" && |FILE_OPENS| + |name| < |text| then
        [name] + FileReferences(text[|FILE_OPENS| + |name| + 1..])
      else FileReferences(text[1..])
  }

  lemma {:induction false} NameEnds(name: string, rest: string)
    requires '}' !in name
    ensures ToBrace(name + "}" + rest) == name
    decreases |name|
  {
    var text := name + "}" + rest;
    if name == "" {
      assert text[0] == '}';
    } else {
      assert text[0] == name[0] && text[1..] == name[1..] + "}" + rest;
      NameEnds(name[1..], rest);
      assert [name[0]] + name[1..] == name;
    }
  }

  lemma {:induction false} BraceFree(text: string)
    ensures ToBrace(text) <= text && '}' !in ToBrace(text)
    ensures |ToBrace(text)| < |text| ==> text[|ToBrace(text)|] == '}'
  {
    if text != "" && text[0] != '}' {
      BraceFree(text[1..]);
    }
  }

  lemma {:induction false} NoReferences(text: string)
    requires !Has(text, FILE_OPENS)
    ensures FileReferences(text) == []
    decreases |text|
  {
    if text != "" {
      assert text[0..] == text;
      if Has(text[1..], FILE_OPENS) {
        HasInTail(text, FILE_OPENS);
      }
      NoReferences(text[1..]);
    }
  }

  lemma OpensOnce()
    ensures OneStart(FILE_OPENS)
  {
  }

  lemma ReferenceHere(name: string, rest: string, text: string)
    requires name != "" && '}' !in name && text == FILE_OPENS + (name + "}" + rest)
    ensures FileReferences(text) == [name] + FileReferences(rest)
  {
    assert text[|FILE_OPENS|..] == name + "}" + rest && FILE_OPENS <= text;
    NameEnds(name, rest);
    assert text[|FILE_OPENS| + |name| + 1..] == rest;
  }

  /** A reference is found wherever it stands, after any text that opens none. */
  lemma {:induction false} ReferenceFound(start: string, name: string, rest: string)
    requires !Has(start, "{file:") && name != "" && '}' !in name
    ensures FileReferences(start + "{file:" + (name + "}" + rest)) == [name] + FileReferences(rest)
    decreases |start|
  {
    var text := start + FILE_OPENS + (name + "}" + rest);
    if start == "" {
      assert text == FILE_OPENS + (name + "}" + rest);
      ReferenceHere(name, rest, text);
    } else {
      OpensOnce();
      NotAtStart(FILE_OPENS, start, name + "}" + rest);
      if Has(start[1..], FILE_OPENS) {
        HasInTail(start, FILE_OPENS);
      }
      assert text[1..] == start[1..] + FILE_OPENS + (name + "}" + rest);
      ReferenceFound(start[1..], name, rest);
    }
  }

  lemma StandsHere(text: string, read: string)
    requires FILE_OPENS <= text && read == ToBrace(text[|FILE_OPENS|..]) && |FILE_OPENS| + |read| < |text|
    ensures '}' !in read && Has(text, FILE_OPENS + read + "}")
  {
    var after := text[|FILE_OPENS|..];
    BraceFree(after);
    assert text == FILE_OPENS + after && after[..|read| + 1] == read + "}";
    assert FILE_OPENS + read + "}" == FILE_OPENS + after[..|read| + 1];
    assert text[0..] == text;
    HasAt(text, FILE_OPENS + read + "}", 0);
  }

  /** And nothing else is. */
  lemma {:induction false} ReferencesStand(text: string, name: string)
    requires name in FileReferences(text)
    ensures name != "" && '}' !in name && Has(text, "{file:" + name + "}")
    decreases |text|
  {
    var read := if FILE_OPENS <= text then ToBrace(text[|FILE_OPENS|..]) else "";
    if read != "" && |FILE_OPENS| + |read| < |text| {
      var n := |FILE_OPENS| + |read| + 1;
      if name == read {
        StandsHere(text, read);
      } else {
        ReferencesStand(text[n..], name);
        HasFurther(text, FILE_OPENS + name + "}", n);
      }
    } else {
      ReferencesStand(text[1..], name);
      HasInTail(text, FILE_OPENS + name + "}");
    }
  }

  lemma HasFurther(text: string, token: string, n: nat)
    requires n <= |text| && Has(text[n..], token)
    ensures Has(text, token)
  {
    var i :| 0 <= i <= |text[n..]| && token <= text[n..][i..];
    assert text[n..][i..] == text[n + i..];
    HasAt(text, token, n + i);
  }

  /** What a file system answers of a reference, its spaces and the harness root seen to, and of a plugin's path. */
  datatype Files = Files(named: string -> bool, plugin: string -> bool)

  /** A file opencode is told to open. */
  datatype Reference = Named(name: string) | Plugin(path: string)

  predicate Present(files: Files, r: Reference) {
    match r
    case Named(name) => files.named(name)
    case Plugin(path) => files.plugin(path)
  }

  /** Every file the value names; key is the member it is under, however many lists down. */
  function References(v: Json, key: string): set<Reference> {
    match v
    case Obj(fields) => set k, r | k in fields && r in References(fields[k], k) :: r
    case Arr(items) => set i, r | 0 <= i < |items| && r in References(items[i], key) :: r
    case Str(text) =>
      (set name | name in FileReferences(text) :: Named(name))
      + if key == "plugin" && text != "" && text[0] == '/' then {Plugin(text)} else {}
    case _ => {}
  }

  /** Every string of a document with the member it is under. */
  ghost function Texts(v: Json, key: string): set<(string, string)> {
    match v
    case Obj(fields) => set k, t | k in fields && t in Texts(fields[k], k) :: t
    case Arr(items) => set i, t | 0 <= i < |items| && t in Texts(items[i], key) :: t
    case Str(text) => {(key, text)}
    case _ => {}
  }

  /** The files are those named in some string, and the absolute paths under "plugin". */
  ghost predicate ReferencesGiven(v: Json, key: string) {
    && (forall name :: Named(name) in References(v, key) <==>
          exists t :: t in Texts(v, key) && name in FileReferences(t.1))
    && (forall path :: Plugin(path) in References(v, key) <==>
          ("plugin", path) in Texts(v, key) && path != "" && path[0] == '/')
  }

  lemma {:induction false} ReferencesAre(v: Json, key: string)
    ensures ReferencesGiven(v, key)
    decreases v
  {
    match v
    case Obj(fields) =>
      forall k | k in fields
        ensures ReferencesGiven(fields[k], k)
      {
        ReferencesAre(fields[k], k);
      }
    case Arr(items) =>
      forall i | 0 <= i < |items|
        ensures ReferencesGiven(items[i], key)
      {
        ReferencesAre(items[i], key);
      }
    case Str(text) =>
      assert (key, text) in Texts(v, key);
    case _ =>
  }

  function Missing(v: Json, files: Files): set<Reference> {
    set r | r in References(v, "") && !Present(files, r)
  }

  lemma MissingAre(v: Json, files: Files)
    ensures forall r :: r in Missing(v, files) <==> r in References(v, "") && !Present(files, r)
    ensures Missing(v, files) == {} <==> forall r :: r in References(v, "") ==> Present(files, r)
  {
    if r :| r in References(v, "") && !Present(files, r) {
      assert r in Missing(v, files);
    }
  }

  /** verify_file_references. */
  method VerifyFileReferences(config: Json, files: Files) returns (missing: set<Reference>)
    ensures missing == Missing(config, files)
  {
    missing := {};
    var references := References(config, "");
    while references != {}
      invariant references <= References(config, "")
      invariant missing == set r | r in References(config, "") - references && !Present(files, r)
      decreases references
    {
      var reference :| reference in references;
      if !Present(files, reference) {
        missing := missing + {reference};
      }
      references := references - {reference};
    }
  }
}

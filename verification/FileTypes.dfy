/** The file type registry's lookups and its content sniffing, for every registry.

    `str.lower` is not modelled: the lookups take it as a function. */
module FileTypes {
  import opened Wrappers
  import opened Text

  type Bytes = seq<bv8>

  /** `canonical` and `aliases` are `mime_types`, which has at least one entry. */
  datatype Spec = Spec(
    key: string,
    canonical: string,
    aliases: seq<string>,
    extensions: seq<string>,
    magic: Option<Bytes>,
    anchorWindow: Option<nat>,
    mcp: bool,
    mimeByExtension: seq<(string, string)>)

  datatype SniffError = UnknownContentType | OwnSignatureMissing | MatchesOther(key: string)

  const SNIFF_WINDOW: nat := 1024

  // ---------------------------------------------------------------------------
  // Lookups
  // ---------------------------------------------------------------------------

  /** What precedes the first semicolon. */
  function BeforeSemicolon(s: string): string {
    if s == "" || s[0] == ';' then "" else [s[0]] + BeforeSemicolon(s[1..])
  }

  function NormalMime(lower: string -> string, mime: string): string {
    lower(Strip(BeforeSemicolon(mime)))
  }

  predicate Declares(spec: Spec, mime: string) { mime == spec.canonical || mime in spec.aliases }

  function SpecForMime(registry: seq<Spec>, lower: string -> string, mime: string): Option<Spec> {
    FirstMime(registry, NormalMime(lower, mime))
  }

  function FirstMime(registry: seq<Spec>, mime: string): Option<Spec> {
    if registry == [] then None
    else if Declares(registry[0], mime) then Some(registry[0])
    else FirstMime(registry[1..], mime)
  }

  function NormalExtension(lower: string -> string, extension: string): string {
    lower(Strip(if extension != "" && extension[0] == '.' then extension else "." + extension))
  }

  /** The dot may be left out. */
  lemma DotIsOptional(lower: string -> string, extension: string)
    requires extension != "" && extension[0] != '.' && !IsSpace(extension[|extension| - 1])
    ensures NormalExtension(lower, extension) == NormalExtension(lower, "." + extension) == lower("." + extension)
  {
    StripOfPadded("", "." + extension, "");
    assert "" + ("." + extension) + "" == "." + extension;
  }

  function FirstExtension(registry: seq<Spec>, extension: string): Option<Spec> {
    if registry == [] then None
    else if extension in registry[0].extensions then Some(registry[0])
    else FirstExtension(registry[1..], extension)
  }

  function SpecForExtension(registry: seq<Spec>, lower: string -> string, extension: string): Option<Spec> {
    FirstExtension(registry, NormalExtension(lower, extension))
  }

  function FirstPair(pairs: seq<(string, string)>, key: string): Option<string> {
    if pairs == [] then None
    else if pairs[0].0 == key then Some(pairs[0].1)
    else FirstPair(pairs[1..], key)
  }

  /** An override for the extension, or the canonical type. */
  function MimeForExtension(spec: Spec, lower: string -> string, extension: string): string {
    match FirstPair(spec.mimeByExtension, NormalExtension(lower, extension))
    case Some(mime) => mime
    case None => spec.canonical
  }

  /** An extension that only one entry declares finds that entry, wherever it stands. */
  lemma {:induction false} UniqueExtensionIsFound(registry: seq<Spec>, i: nat, extension: string)
    requires i < |registry| && extension in registry[i].extensions
    requires forall j :: 0 <= j < |registry| && j != i ==> extension !in registry[j].extensions
    ensures FirstExtension(registry, extension) == Some(registry[i])
  {
    if i > 0 {
      assert extension !in registry[0].extensions;
      UniqueExtensionIsFound(registry[1..], i - 1, extension);
    }
  }

  /** The first entry that declares the extension. */
  predicate FirstDeclares(registry: seq<Spec>, extension: string, i: nat) {
    && i < |registry| && extension in registry[i].extensions
    && forall j :: 0 <= j < i ==> extension !in registry[j].extensions
  }

  lemma {:induction false} FirstExtensionExactly(registry: seq<Spec>, extension: string)
    ensures FirstExtension(registry, extension).None?
            <==> forall i :: 0 <= i < |registry| ==> extension !in registry[i].extensions
    ensures forall i: nat :: FirstDeclares(registry, extension, i) ==>
                        FirstExtension(registry, extension) == Some(registry[i])
  {
    if registry != [] && extension !in registry[0].extensions {
      var rest := registry[1..];
      FirstExtensionExactly(rest, extension);
      assert forall i :: 1 <= i < |registry| ==> registry[i] == rest[i - 1];
      forall i: nat | FirstDeclares(registry, extension, i)
        ensures FirstExtension(registry, extension) == Some(registry[i])
      {
        assert FirstDeclares(rest, extension, i - 1);
      }
    }
  }

  /** The first override for the extension. */
  predicate FirstOverride(spec: Spec, extension: string, i: nat) {
    && i < |spec.mimeByExtension| && spec.mimeByExtension[i].0 == extension
    && forall j :: 0 <= j < i ==> spec.mimeByExtension[j].0 != extension
  }

  lemma {:induction false} FirstPairExactly(pairs: seq<(string, string)>, key: string)
    ensures FirstPair(pairs, key).None? <==> forall i :: 0 <= i < |pairs| ==> pairs[i].0 != key
    ensures forall i :: 0 <= i < |pairs| && pairs[i].0 == key && (forall j :: 0 <= j < i ==> pairs[j].0 != key) ==>
              FirstPair(pairs, key) == Some(pairs[i].1)
  {
    if pairs != [] && pairs[0].0 != key {
      FirstPairExactly(pairs[1..], key);
      assert forall i :: 1 <= i < |pairs| ==> pairs[i] == pairs[1..][i - 1];
    }
  }

  /** The type of an extension: the first override's, or the canonical one when there is none. */
  lemma MimeExactly(spec: Spec, lower: string -> string, extension: string)
    ensures forall i: nat :: FirstOverride(spec, NormalExtension(lower, extension), i) ==>
              MimeForExtension(spec, lower, extension) == spec.mimeByExtension[i].1
    ensures (forall i :: 0 <= i < |spec.mimeByExtension| ==>
               spec.mimeByExtension[i].0 != NormalExtension(lower, extension)) ==>
              MimeForExtension(spec, lower, extension) == spec.canonical
  {
    FirstPairExactly(spec.mimeByExtension, NormalExtension(lower, extension));
  }

  // ---------------------------------------------------------------------------
  // Sniffing
  // ---------------------------------------------------------------------------

  predicate At(content: Bytes, magic: Bytes, i: nat, window: nat) {
    i + |magic| <= |content| && i + |magic| <= window && content[i..i + |magic|] == magic
  }

  /** The signature lies within the first `window` bytes. */
  predicate Contains(content: Bytes, magic: Bytes, window: nat) {
    exists i :: 0 <= i <= |content| && At(content, magic, i, window)
  }

  function Window(spec: Spec): nat {
    if spec.anchorWindow.Some? then spec.anchorWindow.value else SNIFF_WINDOW
  }

  predicate Carries(content: Bytes, spec: Spec) {
    spec.magic.Some? && Contains(content, spec.magic.value, Window(spec))
  }

  predicate Around(content: Bytes, before: Bytes, magic: Bytes, after: Bytes) {
    content == before + magic + after
  }

  /** A signature counts wherever it stands, as long as it ends within its entry's window, or
      within 1024 bytes when the entry names none. */
  lemma CarriesExactly(content: Bytes, spec: Spec)
    ensures Carries(content, spec)
            <==> spec.magic.Some? && exists before, after ::
                   && Around(content, before, spec.magic.value, after)
                   && |before| + |spec.magic.value| <= if spec.anchorWindow.Some? then spec.anchorWindow.value else 1024
  {
    if Carries(content, spec) {
      var i :| 0 <= i <= |content| && At(content, spec.magic.value, i, Window(spec));
      assert Around(content, content[..i], spec.magic.value, content[i + |spec.magic.value|..]);
    }
    if spec.magic.Some? {
      forall before, after | Around(content, before, spec.magic.value, after)
                             && |before| + |spec.magic.value| <= Window(spec)
        ensures Carries(content, spec)
      {
        assert At(content, spec.magic.value, |before|, Window(spec));
      }
    }
  }

  predicate FamiliesOverlap(a: Bytes, b: Bytes) { a <= b || b <= a }

  /** The loop over the registry: the first other signature that is found. */
  function FirstMismatch(registry: seq<Spec>, content: Bytes, spec: Spec): Option<string> {
    if registry == [] then None
    else
      var other := registry[0];
      if other.magic.None? || other.key == spec.key then FirstMismatch(registry[1..], content, spec)
      else if spec.magic.Some? && FamiliesOverlap(spec.magic.value, other.magic.value)
      then FirstMismatch(registry[1..], content, spec)
      else if Contains(content, other.magic.value, Window(other)) then Some(other.key)
      else FirstMismatch(registry[1..], content, spec)
  }

  function SniffSpec(registry: seq<Spec>, content: Bytes, spec: Spec): Result<Spec, SniffError> {
    if spec.magic.Some? && !Contains(content, spec.magic.value, Window(spec)) then Err(OwnSignatureMissing)
    else
      match FirstMismatch(registry, content, spec)
      case Some(key) => Err(MatchesOther(key))
      case None => Ok(spec)
  }

  /** `sniff_content_type`: with an already resolved entry, or by the declared type. */
  function Sniff(registry: seq<Spec>, lower: string -> string, content: Bytes, declared: string, resolved: Option<Spec>)
    : Result<Spec, SniffError>
  {
    match if resolved.Some? then resolved else SpecForMime(registry, lower, declared)
    case None => Err(UnknownContentType)
    case Some(spec) => SniffSpec(registry, content, spec)
  }

  // ---------------------------------------------------------------------------
  // The verdict, exactly
  // ---------------------------------------------------------------------------

  ghost predicate DistinctKeys(registry: seq<Spec>) {
    forall i, j :: 0 <= i < j < |registry| ==> registry[i].key != registry[j].key
  }

  /** The other entry's signature can be told apart from this entry. */
  predicate Rivals(spec: Spec, other: Spec) {
    && other.magic.Some? && other.key != spec.key
    && !(spec.magic.Some? && FamiliesOverlap(spec.magic.value, other.magic.value))
  }

  predicate Refutes(content: Bytes, spec: Spec, other: Spec) {
    Rivals(spec, other) && Carries(content, other)
  }

  lemma {:induction false} MismatchExactly(registry: seq<Spec>, content: Bytes, spec: Spec)
    ensures FirstMismatch(registry, content, spec).None?
            <==> forall i :: 0 <= i < |registry| ==> !Refutes(content, spec, registry[i])
    ensures FirstMismatch(registry, content, spec).Some? ==>
              exists i :: 0 <= i < |registry| && Refutes(content, spec, registry[i])
                          && FirstMismatch(registry, content, spec).value == registry[i].key
                          && forall j :: 0 <= j < i ==> !Refutes(content, spec, registry[j])
  {
    if registry != [] {
      var rest := registry[1..];
      MismatchExactly(rest, content, spec);
      if Refutes(content, spec, registry[0]) {
      } else if FirstMismatch(rest, content, spec).Some? {
        var i :| 0 <= i < |rest| && Refutes(content, spec, rest[i])
                 && FirstMismatch(rest, content, spec).value == rest[i].key
                 && forall j :: 0 <= j < i ==> !Refutes(content, spec, rest[j]);
        assert registry[i + 1] == rest[i];
        assert forall j :: 0 < j < i + 1 ==> registry[j] == rest[j - 1];
      } else {
        forall i | 0 <= i < |registry| ensures !Refutes(content, spec, registry[i]) {
          if i > 0 {
            assert registry[i] == rest[i - 1];
          }
        }
      }
    }
  }

  /** Accepted exactly when the entry's own signature, if it has one, is in its window, and no
      signature of an entry that can be told apart is in that entry's window. */
  lemma AcceptedExactly(registry: seq<Spec>, content: Bytes, spec: Spec)
    ensures SniffSpec(registry, content, spec).Ok?
            <==> (spec.magic.Some? ==> Carries(content, spec)) && forall other :: other in registry ==>
                !Refutes(content, spec, other)
    ensures SniffSpec(registry, content, spec).Ok? ==> SniffSpec(registry, content, spec).value == spec
  {
    MismatchExactly(registry, content, spec);
    assert forall i :: 0 <= i < |registry| ==> registry[i] in registry;
  }

  lemma {:induction false} FirstMimeExactly(registry: seq<Spec>, mime: string)
    ensures FirstMime(registry, mime).None? <==> forall i :: 0 <= i < |registry| ==> !Declares(registry[i], mime)
    ensures FirstMime(registry, mime).Some? ==>
              exists i :: 0 <= i < |registry| && Declares(registry[i], mime)
                  && FirstMime(registry, mime).value == registry[i]
                          && forall j :: 0 <= j < i ==> !Declares(registry[j], mime)
  {
    if registry != [] {
      var rest := registry[1..];
      FirstMimeExactly(rest, mime);
      assert forall i :: 1 <= i < |registry| ==> registry[i] == rest[i - 1];
      if Declares(registry[0], mime) {
      } else if FirstMime(rest, mime).Some? {
        var i :| 0 <= i < |rest| && Declares(rest[i], mime) && FirstMime(rest, mime).value == rest[i]
                 && forall j :: 0 <= j < i ==> !Declares(rest[j], mime);
        assert registry[i + 1] == rest[i];
      }
    }
  }

  /** What a declared type is looked up as: in lower case what stands before its first semicolon,
      without the whitespace around it. */
  lemma NormalMimeExactly(lower: string -> string, before: string, mime: string, after: string, parameters: string)
    requires AllSpace(before) && AllSpace(after) && ';' !in mime
    requires mime != "" && !IsSpace(mime[0]) && !IsSpace(mime[|mime| - 1])
    ensures NormalMime(lower, before + mime + after) == lower(mime)
    ensures NormalMime(lower, before + mime + after + ";" + parameters) == lower(mime)
  {
    var plain := before + mime + after;
    forall i | 0 <= i < |plain| ensures plain[i] != ';' {
      assert plain[i] == if i < |before| then before[i]
                         else if i < |before + mime| then mime[i - |before|] else after[i - |before + mime|];
    }
    NoSemicolon(plain);
    ParametersAreIgnored(plain, parameters);
    StripOfPadded(before, mime, after);
  }

  lemma {:induction false} NoSemicolon(s: string)
    requires forall i :: 0 <= i < |s| ==> s[i] != ';'
    ensures BeforeSemicolon(s) == s
  {
    if s != "" {
      NoSemicolon(s[1..]);
    }
  }

  /** The parameters of a declared type never matter. */
  lemma {:induction false} ParametersAreIgnored(mime: string, parameters: string)
    ensures BeforeSemicolon(mime + ";" + parameters) == BeforeSemicolon(mime)
  {
    var s := mime + ";" + parameters;
    if mime == "" {
      assert s[0] == ';';
    } else if mime[0] != ';' {
      assert s[1..] == mime[1..] + ";" + parameters;
      ParametersAreIgnored(mime[1..], parameters);
    }
  }

  /** The entry that bytes are sniffed as: the resolved one, or the first that declares the type. */
  function SpecFor(
    registry: seq<Spec>, lower: string -> string, declared: string, resolved: Option<Spec>)
    : Option<Spec>
  {
    if resolved.Some? then resolved else SpecForMime(registry, lower, declared)
  }

  /** The whole call: an unknown type exactly when no entry was resolved and none declares the
      type; a missing signature exactly when the entry has one and the bytes lack it; accepted
      exactly when neither that nor another entry's signature speaks against it. */
  lemma SniffExactly(
    registry: seq<Spec>, lower: string -> string, content: Bytes, declared: string, resolved: Option<Spec>)
    ensures var result := Sniff(registry, lower, content, declared, resolved);
            var spec := SpecFor(registry, lower, declared, resolved);
            && (result == Err(UnknownContentType)
                <==> resolved.None? && forall i :: 0 <= i < |registry| ==>
                    !Declares(registry[i], NormalMime(lower, declared)))
            && (result == Err(OwnSignatureMissing)
                <==> spec.Some? && spec.value.magic.Some? && !Carries(content, spec.value))
            && (result.Ok?
                <==> && spec.Some?
                     && (spec.value.magic.Some? ==> Carries(content, spec.value))
                     && forall other :: other in registry ==> !Refutes(content, spec.value, other))
            && (result.Ok? ==> result.value == spec.value)
  {
    FirstMimeExactly(registry, NormalMime(lower, declared));
    var spec := SpecFor(registry, lower, declared, resolved);
    if spec.Some? {
      AcceptedExactly(registry, content, spec.value);
    }
  }

  /** Where an entry stands in the registry never decides whether bytes are accepted. */
  lemma OrderNeverDecides(registry: seq<Spec>, permuted: seq<Spec>, content: Bytes, spec: Spec)
    requires forall s :: s in registry <==> s in permuted
    ensures SniffSpec(registry, content, spec).Ok? <==> SniffSpec(permuted, content, spec).Ok?
  {
    AcceptedExactly(registry, content, spec);
    AcceptedExactly(permuted, content, spec);
  }

  /** Bytes that pass as two kinds with signatures belong to one family: one signature is a
      prefix of the other. */
  lemma AcceptedTwiceMeansFamily(registry: seq<Spec>, content: Bytes, a: Spec, b: Spec)
    requires DistinctKeys(registry) && a in registry && b in registry
    requires a.magic.Some? && b.magic.Some?
    requires SniffSpec(registry, content, a).Ok? && SniffSpec(registry, content, b).Ok?
    ensures a.magic.value <= b.magic.value || b.magic.value <= a.magic.value
  {
    AcceptedExactly(registry, content, a);
    AcceptedExactly(registry, content, b);
    assert !Refutes(content, a, b);
    KeyNamesEntry(registry, a, b);
  }

  /** Entries with the same signature and window are one to the sniff: the same bytes pass. */
  lemma SameSignatureSameVerdict(registry: seq<Spec>, content: Bytes, a: Spec, b: Spec)
    requires DistinctKeys(registry) && a in registry && b in registry
    requires a.magic.Some? && a.magic == b.magic && Window(a) == Window(b)
    ensures SniffSpec(registry, content, a).Ok? <==> SniffSpec(registry, content, b).Ok?
  {
    AcceptedExactly(registry, content, a);
    AcceptedExactly(registry, content, b);
    forall other | other in registry ensures Refutes(content, a, other) <==> Refutes(content, b, other) {
      KeyNamesEntry(registry, a, other);
      KeyNamesEntry(registry, b, other);
    }
  }

  lemma KeyNamesEntry(registry: seq<Spec>, a: Spec, b: Spec)
    requires DistinctKeys(registry) && a in registry && b in registry
    ensures a.key == b.key <==> a == b
  {
    var i :| 0 <= i < |registry| && registry[i] == a;
    var j :| 0 <= j < |registry| && registry[j] == b;
    assert a.key == b.key ==> i == j;
  }

  /** Bytes that pass as a kind without a signature hold no registered signature at all. */
  lemma PlainMeansNoSignature(registry: seq<Spec>, content: Bytes, spec: Spec, other: Spec)
    requires DistinctKeys(registry) && spec in registry && other in registry && spec.magic.None?
    requires SniffSpec(registry, content, spec).Ok?
    ensures !Carries(content, other)
  {
    AcceptedExactly(registry, content, spec);
    assert !Refutes(content, spec, other);
    KeyNamesEntry(registry, spec, other);
  }

  /** One more entry, anywhere: the verdict on some bytes changes exactly when they passed
      before, the new signature can be told apart, and they hold it. */
  lemma AddingChangesExactly(before: seq<Spec>, added: Spec, after: seq<Spec>, content: Bytes, spec: Spec)
    ensures SniffSpec(before + [added] + after, content, spec).Ok?
            <==> SniffSpec(before + after, content, spec).Ok? && !Refutes(content, spec, added)
  {
    AcceptedExactly(before + [added] + after, content, spec);
    AcceptedExactly(before + after, content, spec);
    assert forall s :: s in before + [added] + after <==> s in before + after || s == added;
  }

  /** An entry of the same family never changes anything, down to the error that is raised. */
  lemma FamilyIsNeverInTheWay(before: seq<Spec>, added: Spec, after: seq<Spec>, content: Bytes, spec: Spec)
    requires spec.magic.Some? && added.magic.Some?
    requires spec.magic.value <= added.magic.value || added.magic.value <= spec.magic.value
    ensures SniffSpec(before + [added] + after, content, spec) == SniffSpec(before + after, content, spec)
  {
    SkipsFamily(before, added, after, content, spec);
  }

  lemma {:induction false} SkipsFamily(before: seq<Spec>, added: Spec, after: seq<Spec>, content: Bytes, spec: Spec)
    requires !Rivals(spec, added)
    ensures FirstMismatch(before + [added] + after, content, spec) == FirstMismatch(before + after, content, spec)
  {
    if before == [] {
      assert ([added] + after)[1..] == after;
      assert [] + [added] + after == [added] + after && [] + after == after;
    } else {
      SkipsFamily(before[1..], added, after, content, spec);
      assert (before + [added] + after)[1..] == before[1..] + [added] + after;
      assert (before + after)[1..] == before[1..] + after;
    }
  }
}

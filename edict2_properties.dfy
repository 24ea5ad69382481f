/**
 * What a run of the EDICT2 loader guarantees about the dictionary it
 * builds: which keys can appear, which offsets they map to, which key wins
 * when a key repeats, and what a successful load says about the lines.
 */
module EDict2Properties {
  import opened Wrappers
  import opened EDict2

  /** A key as the loader can produce it. */
  predicate IsKey(k: string) {
    ' ' !in k && '\0' !in k && |k| <= WordBufferSize
  }

  /** An offset just after a newline: the start of a line other than the first. */
  predicate IsEntryStart(raw: seq<char>, v: nat) {
    0 < v <= |raw| && raw[v - 1] == '\n'
  }

  /** The line holding offset i carries the entry-ID marker before i. */
  predicate MarkerBefore(raw: seq<char>, i: nat)
    requires i <= |raw|
  {
    exists j :: LineStart(raw, i) <= j < i && IsEntryIdMarker(raw, j)
  }

  /** What holds of the loader after the first n characters. */
  ghost predicate LoadInvariant(raw: seq<char>, n: nat, s: Loader)
    requires n <= |raw|
  {
    && |s.pending| <= WordBufferSize && ' ' !in s.pending
    && ('\0' !in raw ==> '\0' !in s.pending)
    && (s.state == VersionNumber <==> '\n' !in raw[..n])
    && (s.state == VersionNumber ==> s.lineStart.None? && s.index == map[])
    && (s.state == EnglishDefinition || s.state == EntryId || s.state == VersionNumber ==> s.pending == [])
    && (s.state == EntryId ==> MarkerBefore(raw, n))
    && (s.lineStart.Some? ==> s.lineStart.value == LineStart(raw, n) < n)
    && (s.lineStart.None? && s.state != VersionNumber ==>
          s.state == JapaneseWord && s.pending == [] && LineStart(raw, n) == n)
    && (forall k :: k in s.index ==> IsKey(k) && IsEntryStart(raw, s.index[k]) && s.index[k] < n)
    && (forall k :: k in s.index && '\0' !in raw ==> k != [])
  }

  /** One step of the loader keeps the invariant. */
  lemma StepKeepsInvariant(raw: seq<char>, i: nat, s: Loader)
    requires i < |raw| && Consistent(s) && LoadInvariant(raw, i, s)
    requires Step(raw, i, s).Ok?
    ensures LoadInvariant(raw, i + 1, Step(raw, i, s).value)
  {
    assert raw[..i + 1] == raw[..i] + [raw[i]];
    if raw[i] == '\n' {
      NewlineKeepsInvariant(raw, i, s);
    } else if s.state == JapaneseWord || s.state == Reading {
      PendingKeyHasNoSpace(s.pending);
      WordKeepsInvariant(raw, i, s);
    } else {
      OutsideWordKeepsInvariant(raw, i, s);
    }
  }

  /** The key of a pending word holds no space when the word holds none. */
  lemma PendingKeyHasNoSpace(pending: seq<char>)
    requires ' ' !in pending
    ensures ' ' !in CString(pending)
  {
    var key := CString(pending);
    forall j | 0 <= j < |key| ensures key[j] != ' ' {
      assert key[j] == pending[j];
    }
  }

  lemma NewlineKeepsInvariant(raw: seq<char>, i: nat, s: Loader)
    requires i < |raw| && raw[i] == '\n' && Consistent(s) && LoadInvariant(raw, i, s)
    requires raw[..i + 1] == raw[..i] + [raw[i]]
    requires Step(raw, i, s).Ok?
    ensures LoadInvariant(raw, i + 1, Step(raw, i, s).value)
  {
  }

  lemma WordKeepsInvariant(raw: seq<char>, i: nat, s: Loader)
    requires i < |raw| && raw[i] != '\n' && Consistent(s) && LoadInvariant(raw, i, s)
    requires s.state == JapaneseWord || s.state == Reading
    requires raw[..i + 1] == raw[..i] + [raw[i]]
    requires ' ' !in CString(s.pending)
    requires Step(raw, i, s).Ok?
    ensures LoadInvariant(raw, i + 1, Step(raw, i, s).value)
  {
    assert LineStart(raw, i + 1) == LineStart(raw, i);
    LineStartAfterNewline(raw, i);
    if IsSeparator(s.state, raw[i]) {
      CommitKeepsInvariant(raw, i, s);
    } else {
      AppendKeepsInvariant(raw, i, s);
    }
  }

  /** Past the first line, a line starts just after a newline. */
  lemma LineStartAfterNewline(raw: seq<char>, i: nat)
    requires i <= |raw| && '\n' in raw[..i]
    ensures LineStart(raw, i) > 0
  {
    var j :| 0 <= j < i && raw[..i][j] == '\n';
    assert raw[j] == '\n';
  }

  lemma CommitKeepsInvariant(raw: seq<char>, i: nat, s: Loader)
    requires i < |raw| && raw[i] != '\n' && Consistent(s) && LoadInvariant(raw, i, s)
    requires s.state == JapaneseWord || s.state == Reading
    requires IsSeparator(s.state, raw[i])
    requires raw[..i + 1] == raw[..i] + [raw[i]]
    requires ' ' !in CString(s.pending)
    requires LineStart(raw, i + 1) == LineStart(raw, i) > 0
    requires Step(raw, i, s).Ok?
    ensures LoadInvariant(raw, i + 1, Step(raw, i, s).value)
  {
  }

  lemma AppendKeepsInvariant(raw: seq<char>, i: nat, s: Loader)
    requires i < |raw| && raw[i] != '\n' && Consistent(s) && LoadInvariant(raw, i, s)
    requires s.state == JapaneseWord || s.state == Reading
    requires !IsSeparator(s.state, raw[i])
    requires raw[..i + 1] == raw[..i] + [raw[i]]
    requires LineStart(raw, i + 1) == LineStart(raw, i) > 0
    requires Step(raw, i, s).Ok?
    ensures LoadInvariant(raw, i + 1, Step(raw, i, s).value)
  {
  }

  lemma OutsideWordKeepsInvariant(raw: seq<char>, i: nat, s: Loader)
    requires i < |raw| && raw[i] != '\n' && Consistent(s) && LoadInvariant(raw, i, s)
    requires s.state == VersionNumber || s.state == EnglishDefinition || s.state == EntryId
    requires raw[..i + 1] == raw[..i] + [raw[i]]
    requires Step(raw, i, s).Ok?
    ensures LoadInvariant(raw, i + 1, Step(raw, i, s).value)
  {
    assert LineStart(raw, i + 1) == LineStart(raw, i);
    if s.state == EntryId {
      var j :| LineStart(raw, i) <= j < i && IsEntryIdMarker(raw, j);
      assert LineStart(raw, i + 1) <= j < i + 1;
    } else if s.state == EnglishDefinition && IsEntryIdMarker(raw, i) {
      assert LineStart(raw, i + 1) <= i < i + 1;
    }
  }

  /** The invariant holds after every prefix a load gets through. */
  lemma {:induction false} LoadKeepsInvariant(raw: seq<char>, n: nat)
    requires n <= |raw|
    ensures Steps(raw, 0, n, Start).Ok? ==> LoadInvariant(raw, n, Steps(raw, 0, n, Start).value)
  {
    if n > 0 {
      LoadKeepsInvariant(raw, n - 1);
      if Steps(raw, 0, n - 1, Start).Ok? {
        var s := Steps(raw, 0, n - 1, Start).value;
        if Step(raw, n - 1, s).Ok? {
          StepKeepsInvariant(raw, n - 1, s);
          StepsNext(raw, n - 1, s, Step(raw, n - 1, s).value);
        }
      }
    } else {
      assert raw[..0] == [];
    }
  }

  /**
   * Nothing on the first (version) line has any effect: until the first
   * newline the loader stays in its initial state.
   */
  lemma {:induction false} FirstLineIgnored(raw: seq<char>, n: nat)
    requires n <= |raw| && '\n' !in raw[..n]
    ensures Steps(raw, 0, n, Start) == Ok(Start)
  {
    if n > 0 {
      assert raw[..n - 1] == raw[..n][..n - 1];
      FirstLineIgnored(raw, n - 1);
      assert raw[n - 1] == raw[..n][n - 1];
    }
  }

  /**
   * After a successful load every key is free of spaces and NUL characters,
   * fits the 1024-character buffer, is non-empty when the buffer holds no
   * NUL, and maps to the start of a line after the first one.
   */
  lemma LoadedKeys(raw: seq<char>)
    requires Load(raw).Ok?
    ensures forall k :: k in Load(raw).value.index ==>
      IsKey(k) && IsEntryStart(raw, Load(raw).value.index[k]) && Load(raw).value.index[k] < |raw|
      && ('\0' !in raw ==> k != [])
  {
    LoadKeepsInvariant(raw, |raw|);
  }

  /**
   * A newline is accepted only on the version line or once the line has
   * gone through the entry-ID marker `/EntL`: in a successful load every
   * later line that ends in a newline holds the marker.
   */
  lemma EveryEntryLineHasMarker(raw: seq<char>, i: nat)
    requires Load(raw).Ok?
    requires i < |raw| && raw[i] == '\n' && '\n' in raw[..i]
    ensures MarkerBefore(raw, i)
  {
    if Steps(raw, 0, i + 1, Start).Err? {
      ErrorSticks(raw, 0, i + 1, |raw|, Start);
    }
    LoadKeepsInvariant(raw, i);
  }

  /**
   * A newline is accepted only in VersionNumber and EntryId; it always
   * starts a new line in JapaneseWord with no line start and keeps the
   * pending word and the dictionary.
   */
  lemma NewlineLegality(raw: seq<char>, i: nat, s: Loader)
    requires i < |raw| && raw[i] == '\n' && Consistent(s)
    ensures Step(raw, i, s).Ok? <==> s.state == VersionNumber || s.state == EntryId
    ensures Step(raw, i, s).Err? ==> Step(raw, i, s).error == MalformedLine(i)
    ensures Step(raw, i, s).Ok? ==>
      var t := Step(raw, i, s).value;
      t.state == JapaneseWord && t.lineStart.None? && t.pending == s.pending && t.index == s.index
  {
  }

  /**
   * In the gloss every character but a newline is absorbed: only the five
   * characters `/EntL` (all inside the buffer) move the loader to
   * EntryId, and nothing else changes.
   */
  lemma GlossAbsorbs(raw: seq<char>, i: nat, s: Loader)
    requires i < |raw| && raw[i] != '\n' && s.state == EnglishDefinition
    ensures Step(raw, i, s).Ok?
    ensures Step(raw, i, s).value.state == EntryId <==> IsEntryIdMarker(raw, i)
    ensures Step(raw, i, s).value.state in {EnglishDefinition, EntryId}
    ensures Step(raw, i, s).value.(state := s.state) == s
    ensures raw[i] != '/' ==> Step(raw, i, s).value == s
  {
  }

  /** The key that the character at offset i commits, given the state before it. */
  function CommitAt(raw: seq<char>, i: nat, s: Loader): Option<string>
    requires i < |raw|
  {
    if IsSeparator(s.state, raw[i]) && s.pending != [] then Some(CString(s.pending)) else None
  }

  /** The key the load commits at offset i, if any. */
  ghost function Committed(raw: seq<char>, i: nat): Option<string>
    requires i < |raw|
  {
    match Steps(raw, 0, i, Start)
    case Ok(s) => CommitAt(raw, i, s)
    case Err(_) => None
  }

  /** The last offset before n at which key k is committed. */
  ghost function LastCommit(raw: seq<char>, n: nat, k: string): (r: Option<nat>)
    requires n <= |raw|
    ensures r.Some? ==> r.value < n && Committed(raw, r.value) == Some(k)
    ensures r.Some? ==> forall j :: r.value < j < n ==> Committed(raw, j) != Some(k)
    ensures r.None? ==> forall j :: 0 <= j < n ==> Committed(raw, j) != Some(k)
  {
    if n == 0 then None
    else if Committed(raw, n - 1) == Some(k) then Some(n - 1)
    else LastCommit(raw, n - 1, k)
  }

  /** One step changes the index only by committing a key at the line's start. */
  lemma StepIndex(raw: seq<char>, i: nat, s: Loader)
    requires i < |raw| && Consistent(s) && LoadInvariant(raw, i, s)
    requires Step(raw, i, s).Ok?
    ensures Step(raw, i, s).value.index ==
      match CommitAt(raw, i, s)
      case Some(k) => s.index[k := LineStart(raw, i)]
      case None => s.index
  {
  }

  /**
   * Duplicate keys: a key is in the dictionary exactly when some character
   * committed it, and it maps to the start of the line of its LAST commit.
   */
  lemma {:induction false} LastCommitWins(raw: seq<char>, n: nat, k: string)
    requires n <= |raw| && Steps(raw, 0, n, Start).Ok?
    ensures var index := Steps(raw, 0, n, Start).value.index;
      match LastCommit(raw, n, k)
      case None => k !in index
      case Some(i) => k in index && index[k] == LineStart(raw, i)
  {
    if n > 0 {
      var s := Steps(raw, 0, n - 1, Start).value;
      LastCommitWins(raw, n - 1, k);
      LoadKeepsInvariant(raw, n - 1);
      StepIndex(raw, n - 1, s);
    }
  }
}

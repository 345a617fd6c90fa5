/**
 The ontology update of a consolidated batch
 (src/memory_service/intelligence/graph/ontology_pipeline.py): two passes of entity extraction share
 one set of names already seen, so that every name is written at most once.

 What a language model extracts from a text is an arbitrary function of the text.
 */
module Pipeline {
  import opened Basics
  import opened Names

  datatype Episode = Episode(uuid: string, content: string)

  /** A mention of an entity; an absent name is the empty string. */
  datatype Entity = Entity(name: string, schemaType: string)

  const IMAGE_TYPES := {"Photograph", "ImageObject", "VisualArtwork", "Painting", "Drawing", "Sculpture",
                        "CreativeWork"}
  const MIN_CONTENT := 20
  const BATCH_SEPARATOR := "\n---\n"

  /** `writes` tells for which lower-cased names the queries go through; each of them is tried at most once. */
  datatype Config = Config(tables: CharTables, maxNameWords: int, extract: string -> Option<seq<Entity>>,
                           writes: string -> bool)

  // ---------------------------------------------------------------- batches

  function NonEmptyContents(batch: seq<Episode>): seq<string> {
    if batch == [] then []
    else (if batch[0].content == "" then [] else [batch[0].content]) + NonEmptyContents(batch[1..])
  }

  function BatchContent(batch: seq<Episode>): string {
    if batch == [] then ""
    else if |batch| == 1 then batch[0].content
    else Join(BATCH_SEPARATOR, NonEmptyContents(batch))
  }

  lemma {:induction false} JoinOneMore(separator: string, parts: seq<string>, x: string)
    requires parts != []
    ensures Join(separator, parts + [x]) == Join(separator, parts) + separator + x
  {
    if |parts| > 1 {
      JoinOneMore(separator, parts[1..], x);
      assert (parts + [x])[1..] == parts[1..] + [x];
      assert parts[0] + separator + (Join(separator, parts[1..]) + separator + x)
          == (parts[0] + separator + Join(separator, parts[1..])) + separator + x;
    }
  }

  lemma {:induction false} ContentsOneMore(batch: seq<Episode>, e: Episode)
    ensures NonEmptyContents(batch + [e]) == NonEmptyContents(batch) + (if e.content == "" then [] else [e.content])
  {
    if batch == [] {
      assert (batch + [e])[1..] == [];
    } else {
      ContentsOneMore(batch[1..], e);
      assert (batch + [e])[1..] == batch[1..] + [e];
    }
  }

  lemma {:induction false} ContentsAreNonEmpty(batch: seq<Episode>)
    ensures forall x :: x in NonEmptyContents(batch) ==> x != ""
  {
    if batch != [] { ContentsAreNonEmpty(batch[1..]); }
  }

  lemma BatchIsJoined(batch: seq<Episode>)
    ensures BatchContent(batch) == Join("\n---\n", NonEmptyContents(batch))
    ensures BatchContent(batch) == "" <==> NonEmptyContents(batch) == []
  {
    ContentsAreNonEmpty(batch);
    if |batch| == 1 { assert batch[1..] == []; }
  }

  /** The content of a batch, episode by episode: empty contents leave no trace, others are set apart by a rule. */
  lemma BatchGrows(batch: seq<Episode>, e: Episode)
    ensures BatchContent([]) == ""
    ensures BatchContent(batch + [e])
         == if e.content == "" then BatchContent(batch)
            else if BatchContent(batch) == "" then e.content
            else BatchContent(batch) + "\n---\n" + e.content
  {
    BatchIsJoined(batch);
    BatchIsJoined(batch + [e]);
    ContentsOneMore(batch, e);
    if e.content != "" && NonEmptyContents(batch) != [] {
      JoinOneMore("\n---\n", NonEmptyContents(batch), e.content);
    } else if e.content != "" {
      assert NonEmptyContents(batch) + [e.content] == [e.content];
    } else {
      assert NonEmptyContents(batch) + [] == NonEmptyContents(batch);
    }
  }

  /** Consecutive windows from a start position; a window of a single episode is skipped. */
  function WindowsFrom(episodes: seq<Episode>, size: nat, start: nat): seq<seq<Episode>>
    requires size > 0
    decreases |episodes| - start
  {
    if start >= |episodes| then []
    else
      var window := episodes[start..Min(start + size, |episodes|)];
      (if |window| < 2 then [] else [window]) + WindowsFrom(episodes, size, start + size)
  }

  function Flatten(windows: seq<seq<Episode>>): seq<Episode> {
    if windows == [] then [] else windows[0] + Flatten(windows[1..])
  }

  /** n modulo size, by repeated subtraction. */
  function Leftover(n: nat, size: nat): (r: nat)
    requires size >= 2
    ensures r < size && r <= n
    decreases n
  {
    if n < size then n else Leftover(n - size, size)
  }

  /** How many of n episodes the second pass covers: a single one left over is dropped, and so are windows of one. */
  function Covered(n: nat, size: nat): nat
    requires size > 0
  {
    if size == 1 then 0 else if Leftover(n, size) == 1 then n - 1 else n
  }

  /**
   The second pass covers the episodes in order, up to a single one left over; with windows of one
   it does nothing.
   */
  lemma {:induction false} WindowsCover(episodes: seq<Episode>, size: nat, start: nat)
    requires size > 0 && start <= |episodes|
    ensures Flatten(WindowsFrom(episodes, size, start)) == episodes[start..start + Covered(|episodes| - start, size)]
    decreases |episodes| - start
  {
    if size == 1 {
      SingleWindowsSkipped(episodes, start);
    } else if start + size <= |episodes| {
      WindowsCover(episodes, size, start + size);
      FullWindow(episodes, size, start);
      SliceOneMore(episodes, size, start, Flatten(WindowsFrom(episodes, size, start + size)));
    } else if start < |episodes| {
      LastWindow(episodes, size, start);
    }
  }

  lemma FullWindow(episodes: seq<Episode>, size: nat, start: nat)
    requires size >= 2 && start + size <= |episodes|
    ensures Flatten(WindowsFrom(episodes, size, start)) ==
            episodes[start..start + size] + Flatten(WindowsFrom(episodes, size, start + size))
  {
    FlattenCons(episodes[start..start + size], WindowsFrom(episodes, size, start + size));
  }

  lemma SliceOneMore(episodes: seq<Episode>, size: nat, start: nat, tail: seq<Episode>)
    requires size >= 2 && start + size <= |episodes|
    requires tail == episodes[start + size..start + size + Covered(|episodes| - (start + size), size)]
    ensures episodes[start..start + size] + tail == episodes[start..start + Covered(|episodes| - start, size)]
  {
    CoveredOneMore(|episodes| - start, size);
  }

  lemma CoveredOneMore(n: nat, size: nat)
    requires 2 <= size <= n
    ensures Covered(n, size) == size + Covered(n - size, size)
  {
  }

  lemma LastWindow(episodes: seq<Episode>, size: nat, start: nat)
    requires size >= 2 && start < |episodes| < start + size
    ensures Flatten(WindowsFrom(episodes, size, start)) == episodes[start..start + Covered(|episodes| - start, size)]
  {
    var window := episodes[start..];
    assert WindowsFrom(episodes, size, start + size) == [];
    FlattenCons(window, []);
    assert [window] + [] == [window] && window + [] == window;
  }

  lemma FlattenCons(window: seq<Episode>, rest: seq<seq<Episode>>)
    ensures Flatten([window] + rest) == window + Flatten(rest)
  {
    assert ([window] + rest)[1..] == rest;
  }

  /** Windows of one episode are all skipped: the second pass does nothing. */
  lemma {:induction false} SingleWindowsSkipped(episodes: seq<Episode>, start: nat)
    ensures WindowsFrom(episodes, 1, start) == []
    decreases |episodes| - start
  {
    if start < |episodes| { SingleWindowsSkipped(episodes, start + 1); }
  }

  /** The k-th window: as many episodes as the size, and fewer only at the end; never a single one. */
  lemma {:induction false} WindowAt(episodes: seq<Episode>, size: nat, start: nat, k: nat)
    requires size > 0 && k < |WindowsFrom(episodes, size, start)|
    ensures var first := start + k * size;
            && first + 1 < |episodes|
            && WindowsFrom(episodes, size, start)[k] == episodes[first..Min(first + size, |episodes|)]
            && |WindowsFrom(episodes, size, start)[k]| >= 2
    decreases |episodes| - start
  {
    if size == 1 {
      SingleWindowsSkipped(episodes, start);
    } else if k > 0 {
      WindowAt(episodes, size, start + size, k - 1);
      assert (k - 1) * size + size == k * size;
    }
  }

  function FirstPass(episodes: seq<Episode>): seq<string> {
    if episodes == [] then [] else [episodes[0].content] + FirstPass(episodes[1..])
  }

  function SecondPass(windows: seq<seq<Episode>>): seq<string> {
    if windows == [] then [] else [BatchContent(windows[0])] + SecondPass(windows[1..])
  }

  /** The texts of the second pass: none for a single episode or a negative window size. */
  function SecondContents(episodes: seq<Episode>, size: int): seq<string> {
    if |episodes| >= 2 && size > 0 then SecondPass(WindowsFrom(episodes, size, 0)) else []
  }

  /** The texts extracted from, in order. */
  function AllContents(episodes: seq<Episode>, size: int): seq<string> {
    FirstPass(episodes) + SecondContents(episodes, size)
  }

  // ---------------------------------------------------------------- which mentions are written

  /** Texts that are empty or short once stripped are passed over. */
  predicate Extracted(c: Config, content: string) {
    content != "" && |Strip(content, c.tables.isSpace)| >= MIN_CONTENT
  }

  function Mentions(c: Config, content: string): seq<Entity> {
    if Extracted(c, content) && c.extract(content).Some? then c.extract(content).value else []
  }

  predicate Raises(c: Config, content: string) {
    Extracted(c, content) && c.extract(content).None?
  }

  /** A text counts without the white space around it: under 20 characters nothing is extracted, nor can it raise. */
  lemma ShortTextsAreSkipped(c: Config, before: string, text: string, after: string)
    requires AllDropped(before, c.tables.isSpace) && AllDropped(after, c.tables.isSpace)
    requires text == "" || (!c.tables.isSpace(text[0]) && !c.tables.isSpace(text[|text| - 1]))
    ensures var content := before + text + after;
            && (|text| < 20 ==> Mentions(c, content) == [] && !Raises(c, content))
            && (|text| >= 20 ==> if c.extract(content).Some? then Mentions(c, content) == c.extract(content).value
                                 else Raises(c, content))
            && (Raises(c, content) ==> c.extract(content).None? && Mentions(c, content) == [])
  {
    StripTrims(before, text, after, c.tables.isSpace);
  }

  function AllMentions(c: Config, contents: seq<string>): seq<Entity> {
    if contents == [] then [] else Mentions(c, contents[0]) + AllMentions(c, contents[1..])
  }

  function CountWords(s: string, isSpace: char -> bool, inWord: bool): nat {
    if s == "" then 0
    else if isSpace(s[0]) then CountWords(s[1..], isSpace, false)
    else (if inWord then 0 else 1) + CountWords(s[1..], isSpace, true)
  }

  lemma {:induction false} WordsAcross(a: string, space: char, b: string, isSpace: char -> bool, inWord: bool)
    requires isSpace(space)
    ensures CountWords(a + [space] + b, isSpace, inWord)
         == CountWords(a, isSpace, inWord) + CountWords(b, isSpace, false)
  {
    var s := a + [space] + b;
    if a == "" {
      assert s[1..] == b;
    } else {
      WordsAcross(a[1..], space, b, isSpace, !isSpace(a[0]));
      assert s[1..] == a[1..] + [space] + b;
    }
  }

  lemma {:induction false} RestOfWord(w: string, isSpace: char -> bool)
    requires forall i :: 0 <= i < |w| ==> !isSpace(w[i])
    ensures CountWords(w, isSpace, true) == 0
  {
    if w != "" { RestOfWord(w[1..], isSpace); }
  }

  /** White space sets words apart, and a string without any is one word, unless it is empty. */
  lemma WordsAreCounted(a: string, space: char, b: string, isSpace: char -> bool)
    requires isSpace(space)
    ensures CountWords(a + [space] + b, isSpace, false) == CountWords(a, isSpace, false) + CountWords(b, isSpace, false)
    ensures (forall i :: 0 <= i < |a| ==> !isSpace(a[i])) ==> CountWords(a, isSpace, false) == if a == "" then 0 else 1
  {
    WordsAcross(a, space, b, isSpace, false);
    if a != "" && forall i :: 0 <= i < |a| ==> !isSpace(a[i]) { RestOfWord(a[1..], isSpace); }
  }

  /** Mentions that carry a usable name. */
  predicate Named(c: Config, e: Entity) {
    e.name != "" && Normalize(c.tables, e.name) != ""
  }

  /** Named mentions that are written when they are the first of their name. */
  predicate Worthy(c: Config, e: Entity) {
    e.schemaType !in IMAGE_TYPES && CountWords(e.name, c.tables.isSpace, false) <= c.maxNameWords
  }

  function Lower(c: Config, e: Entity): string {
    c.tables.lower(e.name)
  }

  /** Mention i is the first named one of its lower-cased name. */
  predicate FirstOfName(c: Config, mentions: seq<Entity>, i: nat) {
    && i < |mentions| && Named(c, mentions[i])
    && forall j :: 0 <= j < i && Named(c, mentions[j]) ==> Lower(c, mentions[j]) != Lower(c, mentions[i])
  }

  /** The lower-cased names of the named mentions. */
  function SeenNames(c: Config, met: seq<Entity>): set<string>
    decreases |met|
  {
    if met == [] then {}
    else
      var last := met[|met| - 1];
      SeenNames(c, met[..|met| - 1]) + (if Named(c, last) then {Lower(c, last)} else {})
  }

  predicate IsWritten(c: Config, before: seq<Entity>, e: Entity) {
    Named(c, e) && Lower(c, e) !in SeenNames(c, before) && Worthy(c, e) && c.writes(Lower(c, e))
  }

  /** The mentions written after a series of mentions: named, not seen before, worthy, and not failing. */
  function Written(c: Config, met: seq<Entity>): seq<Entity>
    decreases |met|
  {
    if met == [] then []
    else
      var before, last := met[..|met| - 1], met[|met| - 1];
      Written(c, before) + (if IsWritten(c, before, last) then [last] else [])
  }

  class OntologyUpdate {
    const config: Config
    /** The lower-cased names met so far, shared by both passes. */
    var seenNames: set<string>
    /** The mentions written to the store, in order. */
    var written: seq<Entity>
    ghost var met: seq<Entity>

    constructor (config: Config)
      ensures this.config == config && Valid() && met == []
    {
      this.config := config;
      seenNames, met, written := {}, [], [];
    }

    ghost predicate Valid()
      reads this
    {
      seenNames == SeenNames(config, met) && written == Written(config, met)
    }

    /** The entity loop of one batch. */
    method StoreMentions(entities: seq<Entity>)
      requires Valid()
      modifies this
      ensures Valid() && met == old(met) + entities
    {
      for i := 0 to |entities|
        invariant Valid() && met == old(met) + entities[..i]
      {
        var e := entities[i];
        assert old(met) + entities[..i + 1] == met + [e];
        assert (met + [e])[..|met|] == met;
        met := met + [e];
        if e.name == "" || Normalize(config.tables, e.name) == "" {
          continue;
        }
        if config.tables.lower(e.name) in seenNames {
          continue;
        }
        seenNames := seenNames + {config.tables.lower(e.name)};
        if e.schemaType in IMAGE_TYPES {
          continue;
        }
        if CountWords(e.name, config.tables.isSpace, false) > config.maxNameWords {
          continue;
        }
        if !config.writes(config.tables.lower(e.name)) {
          continue;
        }
        written := written + [e];
      }
      assert entities[..|entities|] == entities;
    }

    /** One batch. A failing extraction raises; the rest of the update is then abandoned. */
    method ExtractAndStore(content: string) returns (raised: bool)
      requires Valid()
      modifies this
      ensures Valid() && raised == Raises(config, content) && met == old(met) + Mentions(config, content)
    {
      assert old(met) + [] == met;
      if content == "" || |Strip(content, config.tables.isSpace)| < MIN_CONTENT {
        return false;
      }
      var entities := config.extract(content);
      if entities.None? {
        return true;
      }
      StoreMentions(entities.value);
      raised := false;
    }

    /** One more batch of a pass that has gone through the given texts. */
    method ExtractNext(content: string, ghost from: seq<Entity>, ghost done: seq<string>) returns (raised: bool)
      requires Valid() && Processed(config, from, done, false, met)
      modifies this
      ensures Valid() && Processed(config, from, done + [content], raised, met)
    {
      ghost var before := met;
      raised := ExtractAndStore(content);
      ProcessedOneMore(config, from, done, before, content, raised, met);
    }

    method PerEpisodePass(episodes: seq<Episode>) returns (raised: bool)
      requires Valid()
      modifies this
      ensures Valid() && Processed(config, old(met), FirstPass(episodes), raised, met)
    {
      NothingProcessed(config, met);
      for i := 0 to |episodes|
        invariant Valid() && Processed(config, old(met), FirstPass(episodes[..i]), false, met)
      {
        FirstPassOneMore(episodes, i);
        raised := ExtractNext(episodes[i].content, old(met), FirstPass(episodes[..i]));
        if raised {
          RaisedEarly(config, old(met), FirstPass(episodes[..i + 1]), met, FirstPass(episodes[i + 1..]));
          FirstPassSplits(episodes, i + 1);
          return;
        }
      }
      assert episodes[..|episodes|] == episodes;
      raised := false;
    }

    /** The window at one start position, unless it holds a single episode. */
    method ExtractWindow(episodes: seq<Episode>, size: nat, start: nat, ghost from: seq<Entity>,
                         ghost done: seq<string>, ghost all: seq<string>)
      returns (raised: bool, ghost longer: seq<string>)
      requires Valid() && size > 0 && start < |episodes| && Midpass(config, from, episodes, size, start, done, all, met)
      modifies this
      ensures Valid()
      ensures raised ==> Processed(config, from, all, true, met)
      ensures !raised ==> Midpass(config, from, episodes, size, start + size, longer, all, met)
    {
      var batch := episodes[start..Min(start + size, |episodes|)];
      if |batch| < 2 {
        SkippedWindow(config, from, episodes, size, start, done, all, met, batch);
        return false, done;
      }
      longer := done + [BatchContent(batch)];
      assert Processed(config, from, done, false, met);
      raised := ExtractNext(BatchContent(batch), from, done);
      WindowDone(config, from, episodes, size, start, done, all, batch, raised, met);
    }

    method WindowPass(episodes: seq<Episode>, size: nat) returns (raised: bool)
      requires Valid() && size > 0
      modifies this
      ensures Valid() && Processed(config, old(met), SecondPass(WindowsFrom(episodes, size, 0)), raised, met)
    {
      ghost var from, all := met, SecondPass(WindowsFrom(episodes, size, 0));
      ghost var done: seq<string> := [];
      BeforeWindows(config, from, episodes, size);
      var start := 0;
      while start < |episodes|
        invariant Valid() && Midpass(config, from, episodes, size, start, done, all, met)
        decreases |episodes| - start
      {
        raised, done := ExtractWindow(episodes, size, start, from, done, all);
        if raised {
          return;
        }
        start := start + size;
      }
      AfterWindows(config, from, episodes, size, start, done, all, met);
      raised := false;
    }

    /**
     Both passes over one group. Unless an extraction raises, every mention of every text of both
     passes is met, in order. A window size of zero raises between the passes.
     */
    method UpdateGroup(episodes: seq<Episode>, size: int) returns (raised: bool)
      requires Valid() && met == []
      modifies this
      ensures Valid()
      ensures |episodes| < 2 || size != 0 ==> Processed(config, [], AllContents(episodes, size), raised, met)
      ensures |episodes| >= 2 && size == 0 ==> raised
    {
      ghost var second := SecondContents(episodes, size);
      raised := PerEpisodePass(episodes);
      if raised {
        RaisedEarly(config, [], FirstPass(episodes), met, second);
        return;
      }
      if |episodes| < 2 {
        assert FirstPass(episodes) + [] == FirstPass(episodes);
        return;
      }
      if size == 0 {
        return true;
      }
      if size < 0 {
        assert FirstPass(episodes) + [] == FirstPass(episodes);
        return;
      }
      ghost var between := met;
      raised := WindowPass(episodes, size);
      ProcessedChain(config, [], FirstPass(episodes), between, second, raised, met);
    }
  }

  predicate AnyRaises(c: Config, contents: seq<string>) {
    contents != [] && (Raises(c, contents[0]) || AnyRaises(c, contents[1..]))
  }

  /**
   Going through texts from one list of mentions leads to another: it raises exactly when one of the
   extractions does, and otherwise appends the mentions of every text.
   */
  ghost predicate Processed(c: Config, from: seq<Entity>, contents: seq<string>, raised: bool, to: seq<Entity>) {
    && (raised <==> AnyRaises(c, contents))
    && (!raised ==> to == from + AllMentions(c, contents))
  }

  lemma NothingProcessed(c: Config, met: seq<Entity>)
    ensures Processed(c, met, [], false, met)
  {
    assert met + [] == met;
  }

  lemma {:induction false} TextsAppend(c: Config, a: seq<string>, b: seq<string>)
    ensures AllMentions(c, a + b) == AllMentions(c, a) + AllMentions(c, b)
    ensures AnyRaises(c, a + b) <==> AnyRaises(c, a) || AnyRaises(c, b)
  {
    if a == [] {
      assert a + b == b;
    } else {
      assert (a + b)[1..] == a[1..] + b;
      TextsAppend(c, a[1..], b);
    }
  }

  lemma OneText(c: Config, content: string)
    ensures AllMentions(c, [content]) == Mentions(c, content)
    ensures AnyRaises(c, [content]) <==> Raises(c, content)
  {
    assert [content][1..] == [] && Mentions(c, content) + [] == Mentions(c, content);
  }

  lemma ProcessedOneMore(c: Config, from: seq<Entity>, contents: seq<string>, mid: seq<Entity>, content: string,
                         raised: bool, to: seq<Entity>)
    requires Processed(c, from, contents, false, mid)
    requires raised == Raises(c, content) && to == mid + Mentions(c, content)
    ensures Processed(c, from, contents + [content], raised, to)
  {
    OneText(c, content);
    TextsAppend(c, contents, [content]);
    AppendAssociative(from, AllMentions(c, contents), Mentions(c, content));
  }

  lemma ProcessedChain(c: Config, from: seq<Entity>, a: seq<string>, mid: seq<Entity>, b: seq<string>, raised: bool,
                       to: seq<Entity>)
    requires Processed(c, from, a, false, mid) && Processed(c, mid, b, raised, to)
    ensures Processed(c, from, a + b, raised, to)
  {
    TextsAppend(c, a, b);
    AppendAssociative(from, AllMentions(c, a), AllMentions(c, b));
  }

  lemma RaisedEarly(c: Config, from: seq<Entity>, contents: seq<string>, to: seq<Entity>, rest: seq<string>)
    requires Processed(c, from, contents, true, to)
    ensures Processed(c, from, contents + rest, true, to)
  {
    TextsAppend(c, contents, rest);
  }

  lemma {:induction false} FirstPassSplits(episodes: seq<Episode>, i: nat)
    requires i <= |episodes|
    ensures FirstPass(episodes) == FirstPass(episodes[..i]) + FirstPass(episodes[i..])
  {
    if i == 0 {
      assert episodes[0..] == episodes && episodes[..0] == [];
    } else {
      assert episodes[..i][1..] == episodes[1..][..i - 1] && episodes[i..] == episodes[1..][i - 1..];
      FirstPassSplits(episodes[1..], i - 1);
    }
  }

  lemma FirstPassOneMore(episodes: seq<Episode>, i: nat)
    requires i < |episodes|
    ensures FirstPass(episodes[..i + 1]) == FirstPass(episodes[..i]) + [episodes[i].content]
  {
    FirstPassSplits(episodes[..i + 1], i);
    assert episodes[..i + 1][..i] == episodes[..i] && episodes[..i + 1][i..] == [episodes[i]];
    assert [episodes[i]][1..] == [];
  }

  /** The second pass has gone through the texts of the windows before start. */
  ghost predicate Remaining(episodes: seq<Episode>, size: nat, start: nat, done: seq<string>, all: seq<string>)
    requires size > 0
  {
    all == done + SecondPass(WindowsFrom(episodes, size, start))
  }

  /** Nothing has raised in the windows before start. */
  ghost predicate Midpass(c: Config, from: seq<Entity>, episodes: seq<Episode>, size: nat, start: nat,
                          done: seq<string>, all: seq<string>, met: seq<Entity>)
    requires size > 0
  {
    Remaining(episodes, size, start, done, all) && Processed(c, from, done, false, met)
  }

  lemma BeforeWindows(c: Config, met: seq<Entity>, episodes: seq<Episode>, size: nat)
    requires size > 0
    ensures Midpass(c, met, episodes, size, 0, [], SecondPass(WindowsFrom(episodes, size, 0)), met)
  {
    NothingProcessed(c, met);
  }

  lemma AfterWindows(c: Config, from: seq<Entity>, episodes: seq<Episode>, size: nat, start: nat, done: seq<string>,
                     all: seq<string>, met: seq<Entity>)
    requires size > 0 && start >= |episodes| && Midpass(c, from, episodes, size, start, done, all, met)
    ensures Processed(c, from, all, false, met)
  {
    assert done + [] == done;
    assert SecondPass(WindowsFrom(episodes, size, start)) == [];
  }

  lemma RaisedRemaining(c: Config, from: seq<Entity>, to: seq<Entity>, episodes: seq<Episode>, size: nat, start: nat,
                        done: seq<string>, all: seq<string>)
    requires size > 0 && Remaining(episodes, size, start, done, all) && Processed(c, from, done, true, to)
    ensures Processed(c, from, all, true, to)
  {
    RaisedEarly(c, from, done, to, SecondPass(WindowsFrom(episodes, size, start)));
  }

  lemma NextWindow(episodes: seq<Episode>, size: nat, start: nat, done: seq<string>, all: seq<string>,
                   batch: seq<Episode>)
    requires size > 0 && start < |episodes| && batch == episodes[start..Min(start + size, |episodes|)]
    requires Remaining(episodes, size, start, done, all)
    ensures Remaining(episodes, size, start + size, if |batch| >= 2 then done + [BatchContent(batch)] else done, all)
  {
    var rest := WindowsFrom(episodes, size, start + size);
    var after := SecondPass(rest);
    assert ([batch] + rest)[1..] == rest && [] + rest == rest;
    assert (done + [BatchContent(batch)]) + after == done + ([BatchContent(batch)] + after);
  }

  lemma SkippedWindow(c: Config, from: seq<Entity>, episodes: seq<Episode>, size: nat, start: nat, done: seq<string>,
                      all: seq<string>, met: seq<Entity>, batch: seq<Episode>)
    requires size > 0 && start < |episodes| && batch == episodes[start..Min(start + size, |episodes|)] && |batch| < 2
    requires Midpass(c, from, episodes, size, start, done, all, met)
    ensures Midpass(c, from, episodes, size, start + size, done, all, met)
  {
    NextWindow(episodes, size, start, done, all, batch);
  }

  lemma WindowDone(c: Config, from: seq<Entity>, episodes: seq<Episode>, size: nat, start: nat, done: seq<string>,
                   all: seq<string>, batch: seq<Episode>, raised: bool, to: seq<Entity>)
    requires size > 0 && start < |episodes| && batch == episodes[start..Min(start + size, |episodes|)] && |batch| >= 2
    requires Remaining(episodes, size, start, done, all) && Processed(c, from, done + [BatchContent(batch)], raised, to)
    ensures raised ==> Processed(c, from, all, true, to)
    ensures !raised ==> Midpass(c, from, episodes, size, start + size, done + [BatchContent(batch)], all, to)
  {
    NextWindow(episodes, size, start, done, all, batch);
    if raised { RaisedRemaining(c, from, to, episodes, size, start + size, done + [BatchContent(batch)], all); }
  }

  // ---------------------------------------------------------------- once per name

  lemma {:induction false} SeenMembers(c: Config, met: seq<Entity>, name: string)
    ensures name in SeenNames(c, met) <==> exists i :: 0 <= i < |met| && Named(c, met[i]) && Lower(c, met[i]) == name
    decreases |met|
  {
    if met != [] {
      var before := met[..|met| - 1];
      SeenMembers(c, before, name);
      if name in SeenNames(c, before) {
        var i :| 0 <= i < |before| && Named(c, before[i]) && Lower(c, before[i]) == name;
        assert met[i] == before[i];
      }
      if i :| 0 <= i < |met| && Named(c, met[i]) && Lower(c, met[i]) == name {
        assert i < |before| ==> before[i] == met[i];
      }
    }
  }

  lemma {:induction false} WrittenWereSeen(c: Config, met: seq<Entity>, e: Entity)
    requires e in Written(c, met)
    ensures e in met && Named(c, e) && Worthy(c, e) && c.writes(Lower(c, e)) && Lower(c, e) in SeenNames(c, met)
    decreases |met|
  {
    var before := met[..|met| - 1];
    if e in Written(c, before) { WrittenWereSeen(c, before, e); }
  }

  /** No lower-cased name is written twice, whatever the batches extract. */
  lemma {:induction false} EachNameOnce(c: Config, met: seq<Entity>, k: nat, l: nat)
    requires k < l < |Written(c, met)|
    ensures Lower(c, Written(c, met)[k]) != Lower(c, Written(c, met)[l])
    decreases |met|
  {
    var before := met[..|met| - 1];
    var w := Written(c, before);
    if l < |w| {
      EachNameOnce(c, before, k, l);
    } else {
      assert Written(c, met)[k] == w[k];
      WrittenWereSeen(c, before, w[k]);
    }
  }

  /**
   Mention i is e: neither an image nor too long a name, the first of its lower-cased name among those with a
   usable one, and its write goes through.
   */
  predicate IsWrittenFirst(c: Config, met: seq<Entity>, i: nat, e: Entity) {
    && i < |met| && met[i] == e && e.name != "" && Normalize(c.tables, e.name) != ""
    && e.schemaType !in ["Photograph", "ImageObject", "VisualArtwork", "Painting", "Drawing", "Sculpture",
                         "CreativeWork"]
    && CountWords(e.name, c.tables.isSpace, false) <= c.maxNameWords
    && c.writes(c.tables.lower(e.name))
    && forall j :: 0 <= j < i && met[j].name != "" && Normalize(c.tables, met[j].name) != "" ==>
         c.tables.lower(met[j].name) != c.tables.lower(e.name)
  }

  /**
   A name is written exactly when its first named mention is worthy and its write goes through: a first
   mention that is rejected as an image or as too long, or whose write fails, keeps later mentions of the
   name out as well.
   */
  lemma {:induction false} WrittenAreWorthyFirsts(c: Config, met: seq<Entity>, e: Entity)
    ensures e in Written(c, met) <==> exists i: nat :: IsWrittenFirst(c, met, i, e)
    decreases |met|
  {
    if met != [] {
      var n := |met| - 1;
      WrittenAreWorthyFirsts(c, met[..n], e);
      WrittenOneMore(c, met, e);
      if i: nat :| IsWrittenFirst(c, met[..n], i, e) {
        FirstInPrefix(c, met, i, e);
      }
      if i: nat :| IsWrittenFirst(c, met, i, e) {
        if i < n { FirstInPrefix(c, met, i, e); }
      }
    }
  }

  lemma WrittenOneMore(c: Config, met: seq<Entity>, e: Entity)
    requires met != []
    ensures e in Written(c, met) <==> e in Written(c, met[..|met| - 1]) || IsWrittenFirst(c, met, |met| - 1, e)
  {
    LastIsFirst(c, met);
  }

  lemma FirstInPrefix(c: Config, met: seq<Entity>, i: nat, e: Entity)
    requires i < |met| - 1
    ensures IsWrittenFirst(c, met, i, e) <==> IsWrittenFirst(c, met[..|met| - 1], i, e)
  {
    var before := met[..|met| - 1];
    assert forall j :: 0 <= j <= i ==> before[j] == met[j];
  }

  lemma LastIsFirst(c: Config, met: seq<Entity>)
    requires met != []
    ensures var n := |met| - 1;
            FirstOfName(c, met, n) <==> Named(c, met[n]) && Lower(c, met[n]) !in SeenNames(c, met[..n])
  {
    var n := |met| - 1;
    SeenMembers(c, met[..n], Lower(c, met[n]));
    if Lower(c, met[n]) in SeenNames(c, met[..n]) {
      var j :| 0 <= j < n && Named(c, met[..n][j]) && Lower(c, met[..n][j]) == Lower(c, met[n]);
      assert Named(c, met[j]) && Lower(c, met[j]) == Lower(c, met[n]);
    } else {
      forall j | 0 <= j < n && Named(c, met[j]) ensures Lower(c, met[j]) != Lower(c, met[n]) {
        assert met[..n][j] == met[j];
      }
    }
  }

  /** A painting mentioned first keeps a person of the same name out, although the person alone would be written. */
  lemma RejectedFirstMentionBlocks(c: Config)
    requires Lawful(c.tables) && c.maxNameWords >= 1
    ensures var painting, person := Entity("ada", "Painting"), Entity("ada", "Person");
            Written(c, [painting, person]) == [] && (Written(c, [person]) == [person] <==> c.writes(Lower(c, person)))
  {
    var painting, person := Entity("ada", "Painting"), Entity("ada", "Person");
    assert IsKey("ada");
    NormalizeFixpoints(c.tables, "ada");
    OneWord(c);
    assert [painting, person][..1] == [painting];
    assert Named(c, painting) && Named(c, person) && Worthy(c, person);
    FirstMention(c, painting);
    FirstMention(c, person);
  }

  lemma FirstMention(c: Config, e: Entity)
    requires Named(c, e)
    ensures SeenNames(c, [e]) == {Lower(c, e)}
    ensures Written(c, [e]) == if Worthy(c, e) && c.writes(Lower(c, e)) then [e] else []
  {
    assert [e][..0] == [];
    assert SeenNames(c, []) == {} && Written(c, []) == [];
  }

  /** A write that fails is not tried again when the same mention comes back. */
  lemma FailedWriteIsNotRetried(c: Config, e: Entity, again: seq<Entity>)
    requires Named(c, e) && !c.writes(Lower(c, e)) && forall i :: 0 <= i < |again| ==> again[i] == e
    ensures Written(c, [e] + again) == []
    decreases |again|
  {
    if again == [] {
      assert ([e] + again)[..0] == [];
    } else {
      var shorter := again[..|again| - 1];
      FailedWriteIsNotRetried(c, e, shorter);
      assert ([e] + again)[..|again|] == [e] + shorter;
    }
  }

  lemma OneWord(c: Config)
    requires Lawful(c.tables)
    ensures CountWords("ada", c.tables.isSpace, false) == 1
  {
    var isSpace := c.tables.isSpace;
    assert "ada"[1..] == "da" && "da"[1..] == "a" && "a"[1..] == "";
    assert !isSpace('a') && !isSpace('d');
    assert CountWords("a", isSpace, true) == 0 && CountWords("da", isSpace, true) == 0;
  }
}

/**
 * `RobertaAnchorScorer`: builds the anchor lexicon, keeps a memo cache of
 * sentence embeddings, and scores a sentence by comparing each of its tokens
 * with every anchor word.
 */
module AnchorScorer {

  import opened Wrappers
  import opened Text
  import opened States
  import opened AnchorLexicon
  import opened AnchorJoin

  /** `[t for t in words if t.isalpha() and t not in STOPWORDS]`. */
  function Tokens(words: seq<string>, stopwords: set<string>): (r: seq<string>)
    ensures forall t :: t in r <==> t in words && IsAlpha(t) && t !in stopwords
  {
    if words == [] then []
    else
      var t := words[|words| - 1];
      Tokens(words[..|words| - 1], stopwords) + (if IsAlpha(t) && t !in stopwords then [t] else [])
  }

  /** The filter keeps the words' order and repetitions: it distributes over concatenation. */
  lemma {:induction false} TokensOfConcat(a: seq<string>, b: seq<string>, stopwords: set<string>)
    ensures Tokens(a + b, stopwords) == Tokens(a, stopwords) + Tokens(b, stopwords)
  {
    if b == [] {
      assert a + b == a;
    } else {
      var b' := b[..|b| - 1];
      assert (a + b)[..|a + b| - 1] == a + b';
      assert (a + b)[|a + b| - 1] == b[|b| - 1];
      TokensOfConcat(a, b', stopwords);
    }
  }

  /** `[t for t in texts if t not in self.cache]`. */
  function Uncached(texts: seq<string>, cache: map<string, Vec>): (r: seq<string>)
    ensures forall t :: t in r <==> t in texts && t !in cache
  {
    if texts == [] then []
    else
      var t := texts[|texts| - 1];
      Uncached(texts[..|texts| - 1], cache) + (if t !in cache then [t] else [])
  }

  /** The encoder is called exactly when some text is not cached. */
  lemma NothingUncached(texts: seq<string>, cache: map<string, Vec>)
    ensures Uncached(texts, cache) == [] <==> forall t :: t in texts ==> t in cache
  {
    if Uncached(texts, cache) != [] {
      assert Uncached(texts, cache)[0] in Uncached(texts, cache);
    }
  }

  /** `model.encode(batch)`: one vector per text, each the embedding of that text. */
  function Embeds(embed: string -> Vec, batch: seq<string>): seq<Vec>
  {
    seq(|batch|, i requires 0 <= i < |batch| => embed(batch[i]))
  }

  /**
   * The loop of `__init__` over the table: each row's weights are stored under
   * its key; a key new to the dict also takes the next place in its key order.
   */
  method ReadLexicon(rows: seq<Row>) returns (lexicon: map<string, Tally>, order: seq<string>)
    ensures lexicon == Build(rows) && order == Anchors(rows)
  {
    lexicon, order := map[], [];
    for i := 0 to |rows|
      invariant lexicon == Build(rows[..i]) && order == Anchors(rows[..i])
    {
      BuildStep(rows, i);
      var word := Key(rows[i].word);
      if word !in lexicon {
        order := order + [word];
      }
      lexicon := lexicon[word := WeightsOf(rows[i])];
    }
    assert rows[..|rows|] == rows;
  }

  class RobertaAnchorScorer {

    /** `self.lexicon`: word key to the weights of hypo, hyper and flow. */
    const lexicon: map<string, Tally>
    /** `self.anchor_words`: the lexicon's keys in insertion order. */
    const anchorWords: seq<string>
    const threshold: real
    /** The sentence encoder, a deterministic function of one text. */
    const embed: string -> Vec
    /** The similarity of two embeddings (cosine similarity in the source). */
    const similarity: (Vec, Vec) -> real
    /** The word tokenizer. */
    const tokenize: string -> seq<string>
    /** The English stopword list. */
    const stopwords: set<string>

    /** `self.cache`: text to embedding. */
    var cache: map<string, Vec>
    /** `self.anchor_embs`: one embedding per anchor word. */
    var anchorEmbs: seq<Vec>
    /** Every batch of texts handed to the encoder so far, oldest first. */
    ghost var encoderBatches: seq<seq<string>>

    /** The cache holds only embeddings the encoder computed for their own texts. */
    ghost predicate CacheValid()
      reads this
    {
      forall t :: t in cache ==> cache[t] == embed(t)
    }

    ghost predicate Valid()
      reads this
    {
      && CacheValid()
      && (forall w :: w in lexicon <==> w in anchorWords)
      && Distinct(anchorWords)
      && |anchorEmbs| == |anchorWords|
      && (forall i :: 0 <= i < |anchorWords| ==> anchorEmbs[i] == embed(anchorWords[i]))
    }

    /** `__init__`: reads the rows into the lexicon, then embeds every anchor word once. */
    constructor (rows: seq<Row>, threshold: real, embed: string -> Vec, similarity: (Vec, Vec) -> real,
                 tokenize: string -> seq<string>, stopwords: set<string>)
      ensures Valid()
      ensures lexicon == Build(rows) && anchorWords == Anchors(rows)
      ensures this.threshold == threshold && this.stopwords == stopwords
      ensures this.embed == embed && this.similarity == similarity && this.tokenize == tokenize
      ensures forall i :: 0 <= i < |anchorWords| ==> anchorEmbs[i] == embed(anchorWords[i])
      ensures forall t :: t in cache <==> t in anchorWords
      ensures encoderBatches == if anchorWords == [] then [] else [anchorWords]
    {
      var lex, order := ReadLexicon(rows);
      AnchorsListKeys(rows);
      lexicon := lex;
      anchorWords := order;
      this.threshold := threshold;
      this.embed := embed;
      this.similarity := similarity;
      this.tokenize := tokenize;
      this.stopwords := stopwords;
      cache := map[];
      anchorEmbs := [];
      encoderBatches := [];
      new;
      UncachedOfEmpty(anchorWords);
      anchorEmbs := EncodeTexts(anchorWords);
    }

    /**
     * `_encode_texts`: embeds the texts not yet cached in one encoder call,
     * caches them, and returns every text's embedding in input order.
     */
    method EncodeTexts(texts: seq<string>) returns (vecs: seq<Vec>)
      requires CacheValid()
      modifies this`cache, this`encoderBatches
      ensures CacheValid()
      ensures forall t :: t in cache <==> t in old(cache) || t in texts
      ensures forall t :: t in old(cache) ==> cache[t] == old(cache)[t]
      ensures |vecs| == |texts|
      ensures forall i :: 0 <= i < |texts| ==> texts[i] in cache && vecs[i] == cache[texts[i]] == embed(texts[i])
      ensures encoderBatches ==
                old(encoderBatches) + if Uncached(texts, old(cache)) == [] then [] else [Uncached(texts, old(cache))]
    {
      var newTexts := Uncached(texts, cache);
      if newTexts != [] {
        var embs := Embeds(embed, newTexts);
        encoderBatches := encoderBatches + [newTexts];
        for k := 0 to |newTexts|
          invariant CacheValid()
          invariant forall t :: t in cache <==> t in old(cache) || t in newTexts[..k]
          invariant forall t :: t in old(cache) ==> cache[t] == old(cache)[t]
          invariant encoderBatches == old(encoderBatches) + [newTexts]
        {
          assert newTexts[..k + 1] == newTexts[..k] + [newTexts[k]];
          cache := cache[newTexts[k] := embs[k]];
        }
        assert newTexts[..|newTexts|] == newTexts;
      }
      assert forall t :: t in texts ==> t in cache;
      var c := cache;
      vecs := seq(|texts|, i requires 0 <= i < |texts| && texts[i] in c => c[texts[i]]);
      assert forall i :: 0 <= i < |texts| ==> texts[i] in texts;
    }

    /** The join `score_sentence` performs for the given tokens. */
    ghost function JoinFor(tokens: seq<string>): Join
      reads this
    {
      Join(tokens, Embeds(embed, tokens), anchorWords, anchorEmbs, lexicon, similarity, threshold)
    }

    /** The tokens `score_sentence` keeps from a sentence. */
    function SentenceTokens(sentence: string): seq<string>
    {
      Tokens(tokenize(Lower(sentence)), stopwords)
    }

    /**
     * `score_sentence`: the threshold join of the sentence's tokens with all
     * anchors, summarised. A sentence without tokens is not encoded at all;
     * otherwise its tokens are encoded through the cache before the join, which
     * fails when there are no anchors.
     */
    method ScoreSentence(sentence: string) returns (r: Result<ScoreResult, ScoreError>)
      requires Valid()
      modifies this`cache, this`encoderBatches
      ensures Valid()
      ensures r == SentenceScore(JoinFor(SentenceTokens(sentence)))
      ensures forall t :: t in cache <==> t in old(cache) || t in SentenceTokens(sentence)
      ensures forall t :: t in old(cache) ==> cache[t] == old(cache)[t]
      ensures var batch := Uncached(SentenceTokens(sentence), old(cache));
              encoderBatches == old(encoderBatches) + if batch == [] then [] else [batch]
    {
      var tokens := Tokens(tokenize(Lower(sentence)), stopwords);
      if tokens == [] {
        return Success(NoTokens);
      }
      var tokenEmbs := EncodeTexts(tokens);
      if anchorWords == [] {
        return Failure(NoAnchorEmbeddings);
      }
      var j := Join(tokens, tokenEmbs, anchorWords, anchorEmbs, lexicon, similarity, threshold);
      assert tokenEmbs == Embeds(embed, tokens);
      var scores, matched := CompareAll(j);
      r := Success(Summarize(scores, matched));
    }

    /**
     * Encoding the same texts twice: the second call finds them all cached, so
     * it hands nothing to the encoder and returns the same vectors.
     */
    method RepeatedEncodeIsStable(texts: seq<string>) returns (first: seq<Vec>, second: seq<Vec>)
      requires CacheValid()
      modifies this`cache, this`encoderBatches
      ensures first == second
      ensures encoderBatches ==
                old(encoderBatches) + if Uncached(texts, old(cache)) == [] then [] else [Uncached(texts, old(cache))]
    {
      first := EncodeTexts(texts);
      NothingUncached(texts, cache);
      second := EncodeTexts(texts);
    }
  }

  /** On an empty cache every text is uncached, in order. */
  lemma {:induction false} UncachedOfEmpty(texts: seq<string>)
    ensures Uncached(texts, map[]) == texts
  {
    if texts != [] {
      UncachedOfEmpty(texts[..|texts| - 1]);
    }
  }
}

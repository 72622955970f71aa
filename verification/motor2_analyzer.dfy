/** `NLTKNamedEntityFilter` of src/motor-2/analyzer.py: the token texts are
    joined with spaces, handed to NLTK's tokenizer, part-of-speech tagger and
    named-entity chunker, and the chunk labels are written back onto the
    Whoosh tokens by position. */
module Motor2Analyzer {
  import opened Wrappers
  import opened Tokens
  import Text

  /** A child of the tree `ne_chunk` returns: a plain `(word, tag)` leaf, or a
      named-entity subtree with its label and its leaves. */
  datatype ChunkNode =
    | Leaf(word: string, tag: string)
    | Chunk(entLabel: string, leaves: seq<(string, string)>)

  /** The label each leaf of one child stands for: none for a plain leaf, the
      subtree's label for each leaf of a subtree. */
  function NodeLabels(node: ChunkNode): (labels: seq<Option<string>>)
    ensures node.Leaf? ==> labels == [None]
    ensures node.Chunk? ==> (|labels| == |node.leaves| &&
      forall j :: 0 <= j < |labels| ==> labels[j] == Some(node.entLabel))
  {
    match node
    case Leaf(_, _) => [None]
    case Chunk(entLabel, leaves) => seq(|leaves|, _ => Some(entLabel))
  }

  /** The leaves of the whole tree, left to right, each with the label it
      carries. */
  function LeafLabels(chunks: seq<ChunkNode>): seq<Option<string>> {
    if |chunks| == 0 then []
    else LeafLabels(chunks[..|chunks| - 1]) + NodeLabels(chunks[|chunks| - 1])
  }

  /** The label the `i`-th leaf carries, or none when there is no `i`-th leaf. */
  function LabelAt(labels: seq<Option<string>>, i: nat): Option<string> {
    if i < |labels| then labels[i] else None
  }

  function Min(a: nat, b: nat): nat {
    if a <= b then a else b
  }

  /** `ent_map` agrees with the leaf labels on its first `n` positions. */
  ghost predicate MapsLabels(entMap: seq<Option<string>>, labels: seq<Option<string>>) {
    forall i :: 0 <= i < |entMap| ==> entMap[i] == LabelAt(labels, i)
  }

  /** `traverse_tree` over an `ent_map` of `n` positions: the running position
      `w_idx` moves one step per leaf while it is inside the map and then stays
      at the end, so leaf `i` (for `i < n`) writes its subtree's label to
      position `i`, plain leaves leave their position untagged, positions past
      the last leaf stay untagged and leaves past position `n` are dropped. */
  method TraverseTree(chunks: seq<ChunkNode>, n: nat) returns (entMap: seq<Option<string>>, wIdx: nat)
    ensures |entMap| == n
    ensures wIdx == Min(n, |LeafLabels(chunks)|)
    ensures forall i :: 0 <= i < n ==> entMap[i] == LabelAt(LeafLabels(chunks), i)
  {
    entMap := seq(n, _ => None);
    wIdx := 0;
    for c := 0 to |chunks|
      invariant |entMap| == n
      invariant wIdx == Min(n, |LeafLabels(chunks[..c])|)
      invariant MapsLabels(entMap, LeafLabels(chunks[..c]))
    {
      ghost var before := LeafLabels(chunks[..c]);
      assert chunks[..c + 1][..c] == chunks[..c];
      assert LeafLabels(chunks[..c + 1]) == before + NodeLabels(chunks[c]);
      match chunks[c]
      case Chunk(entLabel, leaves) =>
        entMap, wIdx := WriteChunk(entMap, wIdx, before, chunks[c]);
      case Leaf(_, _) =>
        LabelsStep(entMap, before, None);
        if wIdx < n {
          assert entMap[wIdx := None] == entMap;
          wIdx := wIdx + 1;
        }
    }
    assert chunks[..|chunks|] == chunks;
  }

  /** The leaves of one named-entity subtree: each writes the subtree's label
      at the running position while that position is inside the map, so the
      map then agrees with the labels including this subtree's. */
  method WriteChunk(entMap: seq<Option<string>>, wIdx: nat, ghost before: seq<Option<string>>, node: ChunkNode)
    returns (entMap': seq<Option<string>>, wIdx': nat)
    requires node.Chunk?
    requires wIdx == Min(|entMap|, |before|)
    requires MapsLabels(entMap, before)
    ensures |entMap'| == |entMap|
    ensures wIdx' == Min(|entMap|, |before| + |node.leaves|)
    ensures MapsLabels(entMap', before + NodeLabels(node))
  {
    var n := |entMap|;
    entMap', wIdx' := entMap, wIdx;
    ghost var labels := NodeLabels(node);
    for j := 0 to |node.leaves|
      invariant |entMap'| == n
      invariant wIdx' == Min(n, |before| + j)
      invariant MapsLabels(entMap', before + labels[..j])
    {
      ghost var done := before + labels[..j];
      assert before + labels[..j + 1] == done + [Some(node.entLabel)];
      LabelsStep(entMap', done, Some(node.entLabel));
      if wIdx' < n {
        entMap' := entMap'[wIdx' := Some(node.entLabel)];
        wIdx' := wIdx' + 1;
      }
    }
    assert labels[..|node.leaves|] == labels;
  }

  /** One more leaf: inside the map it writes its label at the running
      position, past the end it writes nothing, and either way the map agrees
      with the longer label sequence. */
  lemma LabelsStep(entMap: seq<Option<string>>, labels: seq<Option<string>>, x: Option<string>)
    requires MapsLabels(entMap, labels)
    ensures |labels| < |entMap| ==> MapsLabels(entMap[|labels| := x], labels + [x])
    ensures |labels| >= |entMap| ==> MapsLabels(entMap, labels + [x])
  {
  }

  /** The texts of the tokens, in order. */
  function Texts(tokens: seq<Token>): (texts: seq<string>)
    ensures |texts| == |tokens| && forall i :: 0 <= i < |tokens| ==> texts[i] == tokens[i].text
  {
    seq(|tokens|, i requires 0 <= i < |tokens| => tokens[i].text)
  }

  /** The filter: each token is passed on unchanged except that, when its
      position carries an entity label, `ent_type` is set to that label.
      `tokenize` is `word_tokenize`; `chunk` is `ne_chunk(pos_tag(·))`. */
  method NamedEntityFilter(tokens: seq<Token>, tokenize: string -> seq<string>,
                           chunk: seq<string> -> seq<ChunkNode>) returns (r: seq<Token>)
    ensures |r| == |tokens|
    ensures forall i :: 0 <= i < |r| ==> r[i].(entType := tokens[i].entType) == tokens[i]
    ensures forall i :: 0 <= i < |r| ==> (r[i].entType ==
      var tag := LabelAt(LeafLabels(chunk(tokenize(Text.Join(Texts(tokens), " ")))), i);
      if tag.Some? then tag else tokens[i].entType)
  {
    var originalText := Text.Join(Texts(tokens), " ");
    var chunks := chunk(tokenize(originalText));
    var entMap, _ := TraverseTree(chunks, |tokens|);
    r := [];
    for i := 0 to |tokens|
      invariant |r| == i
      invariant forall k :: 0 <= k < i ==> r[k].(entType := tokens[k].entType) == tokens[k]
      invariant forall k :: 0 <= k < i ==> r[k].entType == if entMap[k].Some? then entMap[k] else tokens[k].entType
    {
      var tok := tokens[i];
      if entMap[i].Some? {
        tok := tok.(entType := entMap[i]);
      }
      r := r + [tok];
    }
  }
}

/** The model layer of the MeCab binding (model.go): turning a configuration
    map into the engine's argument vector, and the two construction paths that
    wrap a native engine handle or report that the engine refused. The engine
    itself is abstract: its two factories are passed in as functions. */
module MeCabModel {
  import opened Wrappers

  /** Name of the option always placed first, so that the engine pre-allocates
      its sentence buffer. */
  const AllocateSentenceKey: string := "allocate-sentence"

  /** That option as passed to the engine: `--allocate-sentence`. */
  const AllocateSentence: string := "--" + AllocateSentenceKey

  /** Error text when the engine cannot build a model from the options. */
  const ModelNotCreated: string := "mecab_model is not created."

  /** Error text when the engine cannot build a tagger from a model. */
  const MeCabNotCreated: string := "mecab is not created."

  /** An opaque native `mecab_model_t*`, known only by its address. */
  datatype ModelHandle = ModelHandle(address: nat)

  /** An opaque native `mecab_t*` (a tagger). */
  datatype TaggerHandle = TaggerHandle(address: nat)

  /** Go's `Model` struct: it owns one native model handle. */
  datatype Model = Model(model: ModelHandle)

  /** Go's `MeCab` struct: it owns one native tagger handle. */
  datatype MeCab = MeCab(mecab: TaggerHandle)

  /** A command-line style long option: it begins with two dashes. */
  predicate IsLongOption(s: string)
  {
    |s| >= 2 && s[0] == '-' && s[1] == '-'
  }

  // ---------------------------------------------------------------------------
  // One map entry rendered as an engine option
  // ---------------------------------------------------------------------------

  /** The option for one configuration entry: `--key=value`, or the bare flag
      `--key` when the value is empty. */
  function RenderOption(key: string, value: string): (r: string)
    ensures IsLongOption(r)
  {
    if value != "" then "--" + key + "=" + value else "--" + key
  }

  /** Where the parts of a rendered option sit: the dashes, then the key, then
      `=` and the value only when the value is non-empty. */
  lemma RenderOptionLayout(key: string, value: string)
    ensures var r := RenderOption(key, value);
      && |r| >= |key| + 2 && r[2..|key| + 2] == key
      && (value == "" ==> |r| == |key| + 2)
      && (value != "" ==> |r| == |key| + 3 + |value| && r[|key| + 2] == '=' && r[|key| + 3..] == value)
  {
  }

  /** Position of the first `c` in `s`, or `|s|` when there is none. */
  function FirstIndexOf(s: string, c: char): (i: nat)
    ensures i <= |s|
    ensures forall j :: 0 <= j < i ==> s[j] != c
    ensures i < |s| ==> s[i] == c
  {
    if s == [] then 0
    else if s[0] == c then 0
    else 1 + FirstIndexOf(s[1..], c)
  }

  /** Reference decoder for one long option, as an option parser reads it:
      drop the dashes and split at the first `=`; no `=` means an empty value. */
  function ParseOption(s: string): (r: Option<(string, string)>)
    ensures r.Some? <==> IsLongOption(s)
    ensures r.Some? ==> '=' !in r.value.0
  {
    if !IsLongOption(s) then None
    else
      var body := s[2..];
      var i := FirstIndexOf(body, '=');
      assert '=' !in body[..i] by {
        forall j | 0 <= j < i ensures body[..i][j] != '=' { }
      }
      if i == |body| then Some((body, "")) else Some((body[..i], body[i + 1..]))
  }

  /** The rendering loses nothing: decoding it gives back the key and the value,
      for every key an option parser can read back (one without `=`). */
  lemma ParseRenderRoundTrip(key: string, value: string)
    requires '=' !in key
    ensures ParseOption(RenderOption(key, value)) == Some((key, value))
  {
    var r := RenderOption(key, value);
    RenderOptionLayout(key, value);
    var body := r[2..];
    assert body[..|key|] == key;
    var i := FirstIndexOf(body, '=');
    if value != "" {
      assert body[|key|] == '=';
      assert i == |key|;
      assert body[i + 1..] == value;
    } else {
      assert body == key;
    }
  }

  // ---------------------------------------------------------------------------
  // The whole option vector, for one iteration order of the map
  // ---------------------------------------------------------------------------

  /** `order` lists every element of `keys` exactly once. */
  ghost predicate Enumerates(order: seq<string>, keys: set<string>)
    decreases |order|
  {
    if order == [] then keys == {}
    else order[0] in keys && Enumerates(order[1..], keys - {order[0]})
  }

  /** One possible iteration order of a Go `range` over `args`: every key,
      each exactly once. */
  ghost predicate IsKeyOrder(args: map<string, string>, order: seq<string>)
  {
    (forall i :: 0 <= i < |order| ==> order[i] in args) && Enumerates(order, args.Keys)
  }

  /** An enumeration is as long as the set it enumerates. */
  lemma {:induction false} EnumeratesSize(order: seq<string>, keys: set<string>)
    requires Enumerates(order, keys)
    ensures |order| == |keys|
    decreases |order|
  {
    if order != [] {
      EnumeratesSize(order[1..], keys - {order[0]});
    }
  }

  /** An enumeration mentions every element of the set it enumerates. */
  lemma {:induction false} EnumeratesCovers(order: seq<string>, keys: set<string>, k: string)
    requires Enumerates(order, keys) && k in keys
    ensures k in order
    decreases |order|
  {
    if order[0] != k {
      EnumeratesCovers(order[1..], keys - {order[0]}, k);
      assert order == [order[0]] + order[1..];
    }
  }

  /** Visiting one more, not yet visited, key extends an enumeration. */
  lemma {:induction false} EnumeratesAppend(order: seq<string>, keys: set<string>, k: string)
    requires Enumerates(order, keys) && k !in keys
    ensures Enumerates(order + [k], keys + {k})
    decreases |order|
  {
    if order == [] {
      assert [k][1..] == [];
      assert keys + {k} - {k} == {};
    } else {
      EnumeratesAppend(order[1..], keys - {order[0]}, k);
      assert (order + [k])[1..] == order[1..] + [k];
      assert keys + {k} - {order[0]} == keys - {order[0]} + {k};
    }
  }

  /** The options for the entries named by `order`, in that order. */
  function RenderAll(args: map<string, string>, order: seq<string>): (r: seq<string>)
    requires forall i :: 0 <= i < |order| ==> order[i] in args
    ensures |r| == |order|
    ensures forall i :: 0 <= i < |order| ==> r[i] == RenderOption(order[i], args[order[i]])
  {
    if order == [] then []
    else [RenderOption(order[0], args[order[0]])] + RenderAll(args, order[1..])
  }

  /** Visiting one more key appends its option. */
  lemma RenderAllAppend(args: map<string, string>, order: seq<string>, k: string)
    requires forall i :: 0 <= i < |order| ==> order[i] in args
    requires k in args
    ensures forall i :: 0 <= i < |order + [k]| ==> (order + [k])[i] in args
    ensures RenderAll(args, order + [k]) == RenderAll(args, order) + [RenderOption(k, args[k])]
  {
    forall i | 0 <= i < |order + [k]| ensures (order + [k])[i] in args {
      if i < |order| { assert (order + [k])[i] == order[i]; }
    }
  }

  /** The option vector `NewModel` builds when the map yields its keys in `order`. */
  function OptionsInOrder(args: map<string, string>, order: seq<string>): (opts: seq<string>)
    requires forall i :: 0 <= i < |order| ==> order[i] in args
    ensures |opts| == |order| + 1 && opts[0] == AllocateSentence
  {
    [AllocateSentence] + RenderAll(args, order)
  }

  /** After the fixed option, entry `i` is the option of the `i`-th key visited. */
  lemma OptionsInOrderEntry(args: map<string, string>, order: seq<string>, i: int)
    requires forall i :: 0 <= i < |order| ==> order[i] in args
    requires 1 <= i <= |order|
    ensures OptionsInOrder(args, order)[i] == RenderOption(order[i - 1], args[order[i - 1]])
  {
    assert OptionsInOrder(args, order)[i] == RenderAll(args, order)[i - 1];
  }

  /** The options built for `args` when the map is visited in some order. */
  ghost predicate IsOptionVector(args: map<string, string>, opts: seq<string>)
  {
    exists order :: IsKeyOrder(args, order) && opts == OptionsInOrder(args, order)
  }

  /** What every option vector of `args` looks like: the fixed first option,
      then one long option per entry, and every entry's option present. */
  lemma OptionVectorShape(args: map<string, string>, opts: seq<string>)
    requires IsOptionVector(args, opts)
    ensures |opts| == |args| + 1
    ensures opts[0] == AllocateSentence
    ensures forall i :: 0 <= i < |opts| ==> IsLongOption(opts[i])
    ensures forall k :: k in args ==> RenderOption(k, args[k]) in opts[1..]
  {
    var order :| IsKeyOrder(args, order) && opts == OptionsInOrder(args, order);
    EnumeratesSize(order, args.Keys);
    assert IsLongOption(opts[0]);
    forall i | 1 <= i < |opts| ensures IsLongOption(opts[i]) {
      OptionsInOrderEntry(args, order, i);
    }
    forall k | k in args ensures RenderOption(k, args[k]) in opts[1..] {
      EnumeratesCovers(order, args.Keys, k);
      var n :| 0 <= n < |order| && order[n] == k;
      OptionsInOrderEntry(args, order, n + 1);
      assert opts[1..][n] == opts[n + 1];
    }
  }

  // ---------------------------------------------------------------------------
  // The same options as an unordered collection
  // ---------------------------------------------------------------------------

  /** The multiset of options of the entries whose keys are in `keys`,
      independent of any order. */
  ghost function Renderings(args: map<string, string>, keys: set<string>): (m: multiset<string>)
    requires keys <= args.Keys
    decreases keys
  {
    if keys == {} then multiset{}
    else
      var k :| k in keys;
      multiset{RenderOption(k, args[k])} + Renderings(args, keys - {k})
  }

  /** Any key may be taken out first: the choice inside `Renderings` does not matter. */
  lemma {:induction false} RenderingsRemove(args: map<string, string>, keys: set<string>, k: string)
    requires keys <= args.Keys && k in keys
    ensures Renderings(args, keys) == multiset{RenderOption(k, args[k])} + Renderings(args, keys - {k})
    decreases |keys|
  {
    var j :| j in keys && Renderings(args, keys) == multiset{RenderOption(j, args[j])} + Renderings(args, keys - {j});
    if j != k {
      RenderingsRemove(args, keys - {j}, k);
      RenderingsRemove(args, keys - {k}, j);
      assert keys - {j} - {k} == keys - {k} - {j};
    }
  }

  /** Rendering an enumeration of `keys` gives exactly the renderings of `keys`. */
  lemma {:induction false} RenderAllRenderings(args: map<string, string>, order: seq<string>, keys: set<string>)
    requires forall i :: 0 <= i < |order| ==> order[i] in args
    requires keys <= args.Keys && Enumerates(order, keys)
    ensures multiset(RenderAll(args, order)) == Renderings(args, keys)
    decreases |order|
  {
    if order != [] {
      var head, rest := order[0], order[1..];
      assert forall i :: 0 <= i < |rest| ==> rest[i] in args by {
        forall i | 0 <= i < |rest| ensures rest[i] in args {
          assert rest[i] == order[i + 1];
        }
      }
      RenderAllRenderings(args, rest, keys - {head});
      RenderingsRemove(args, keys, head);
      assert RenderAll(args, order) == [RenderOption(head, args[head])] + RenderAll(args, rest);
    }
  }

  /** Order independence: every option vector of `args`, whatever order the map
      was visited in, holds after its first element exactly the renderings of
      the map's entries, each as often as it occurs. */
  lemma OptionVectorPermutation(args: map<string, string>, opts: seq<string>)
    requires IsOptionVector(args, opts)
    ensures |opts| >= 1 && multiset(opts[1..]) == Renderings(args, args.Keys)
  {
    var order :| IsKeyOrder(args, order) && opts == OptionsInOrder(args, order);
    RenderAllRenderings(args, order, args.Keys);
    assert opts[1..] == RenderAll(args, order);
  }

  /** Two option vectors built from the same map (in any two iteration orders)
      agree on their length, their first element and their multiset of elements. */
  lemma OptionVectorOrderIndependent(args: map<string, string>, opts1: seq<string>, opts2: seq<string>)
    requires IsOptionVector(args, opts1) && IsOptionVector(args, opts2)
    ensures |opts1| == |opts2| == |args| + 1
    ensures opts1[0] == opts2[0] == AllocateSentence
    ensures multiset(opts1) == multiset(opts2)
  {
    OptionVectorShape(args, opts1);
    OptionVectorShape(args, opts2);
    OptionVectorPermutation(args, opts1);
    OptionVectorPermutation(args, opts2);
    assert opts1 == [opts1[0]] + opts1[1..];
    assert opts2 == [opts2[0]] + opts2[1..];
  }

  // ---------------------------------------------------------------------------
  // Reading the option vector back
  // ---------------------------------------------------------------------------

  /** The fixed option's name has no `=`, so it decodes back to itself. */
  lemma AllocateSentenceKeyPlain()
    ensures '=' !in AllocateSentenceKey
  {
    forall j | 0 <= j < |AllocateSentenceKey| ensures AllocateSentenceKey[j] != '=' { }
  }

  /** Each entry option of an option vector decodes to a pair of the map. */
  lemma OptionVectorEntriesDecode(args: map<string, string>, opts: seq<string>, i: int)
    requires IsOptionVector(args, opts)
    requires forall k :: k in args ==> '=' !in k
    requires 1 <= i < |opts|
    ensures ParseOption(opts[i]).Some?
    ensures ParseOption(opts[i]).value.0 in args
    ensures args[ParseOption(opts[i]).value.0] == ParseOption(opts[i]).value.1
  {
    var order :| IsKeyOrder(args, order) && opts == OptionsInOrder(args, order);
    OptionsInOrderEntry(args, order, i);
    ParseRenderRoundTrip(order[i - 1], args[order[i - 1]]);
  }

  /** Every entry of the map is decoded from some option of an option vector. */
  lemma OptionVectorCoversMap(args: map<string, string>, opts: seq<string>, k: string)
    requires IsOptionVector(args, opts)
    requires '=' !in k && k in args
    ensures exists i :: 1 <= i < |opts| && ParseOption(opts[i]) == Some((k, args[k]))
  {
    OptionVectorShape(args, opts);
    var tail := opts[1..];
    var n :| 0 <= n < |tail| && tail[n] == RenderOption(k, args[k]);
    assert opts[n + 1] == tail[n];
    ParseRenderRoundTrip(k, args[k]);
  }

  /** Decoding with the reference decoder recovers the configuration: when no
      key contains `=`, decoding the option vector gives back `--allocate-sentence` followed
      by exactly the key/value pairs of the map, each present. */
  lemma OptionVectorDecodes(args: map<string, string>, opts: seq<string>)
    requires IsOptionVector(args, opts)
    requires forall k :: k in args ==> '=' !in k
    ensures |opts| >= 1 && ParseOption(opts[0]) == Some((AllocateSentenceKey, ""))
    ensures forall i :: 1 <= i < |opts| ==>
              ParseOption(opts[i]).Some? && ParseOption(opts[i]).value.0 in args &&
              args[ParseOption(opts[i]).value.0] == ParseOption(opts[i]).value.1
    ensures forall k :: k in args ==> exists i :: 1 <= i < |opts| && ParseOption(opts[i]) == Some((k, args[k]))
  {
    OptionVectorShape(args, opts);
    assert AllocateSentence == RenderOption(AllocateSentenceKey, "");
    AllocateSentenceKeyPlain();
    ParseRenderRoundTrip(AllocateSentenceKey, "");
    forall i | 1 <= i < |opts|
      ensures ParseOption(opts[i]).Some? && ParseOption(opts[i]).value.0 in args &&
              args[ParseOption(opts[i]).value.0] == ParseOption(opts[i]).value.1
    {
      OptionVectorEntriesDecode(args, opts, i);
    }
    forall k | k in args
      ensures exists i :: 1 <= i < |opts| && ParseOption(opts[i]) == Some((k, args[k]))
    {
      OptionVectorCoversMap(args, opts, k);
    }
  }

  // ---------------------------------------------------------------------------
  // NewModel and NewMeCab
  // ---------------------------------------------------------------------------

  /** One turn of the loop: visiting a fresh key extends the iteration order
      and appends that key's option to the vector. */
  lemma BuildStep(args: map<string, string>, order: seq<string>, visited: set<string>, k: string)
    requires forall i :: 0 <= i < |order| ==> order[i] in args
    requires Enumerates(order, visited)
    requires k in args && k !in visited
    ensures forall i :: 0 <= i < |order + [k]| ==> (order + [k])[i] in args
    ensures Enumerates(order + [k], visited + {k})
    ensures OptionsInOrder(args, order + [k]) == OptionsInOrder(args, order) + [RenderOption(k, args[k])]
  {
    EnumeratesAppend(order, visited, k);
    RenderAllAppend(args, order, k);
  }

  /** A vector built for a complete iteration order is an option vector of the
      map, with its shape and its multiset of entries. */
  lemma OptionVectorOfOrder(args: map<string, string>, order: seq<string>, opts: seq<string>)
    requires forall i :: 0 <= i < |order| ==> order[i] in args
    requires Enumerates(order, args.Keys)
    requires opts == OptionsInOrder(args, order)
    ensures IsOptionVector(args, opts)
    ensures |opts| == |args| + 1 && opts[0] == AllocateSentence
    ensures forall i :: 0 <= i < |opts| ==> IsLongOption(opts[i])
    ensures forall k :: k in args ==> RenderOption(k, args[k]) in opts[1..]
    ensures multiset(opts[1..]) == Renderings(args, args.Keys)
  {
    assert IsKeyOrder(args, order);
    OptionVectorShape(args, opts);
    OptionVectorPermutation(args, opts);
  }

  /** The option-building loop of `NewModel`: the fixed first option, then one
      option per map entry, the entries taken in whatever order the map yields. */
  method BuildOptions(args: map<string, string>) returns (opts: seq<string>)
    ensures IsOptionVector(args, opts)
    ensures |opts| == |args| + 1 && opts[0] == AllocateSentence
    ensures forall i :: 0 <= i < |opts| ==> IsLongOption(opts[i])
    ensures forall k :: k in args ==> RenderOption(k, args[k]) in opts[1..]
    ensures multiset(opts[1..]) == Renderings(args, args.Keys)
  {
    opts := [AllocateSentence];
    var rest := args.Keys;
    ghost var visited: set<string> := {};
    ghost var order: seq<string> := [];
    while rest != {}
      invariant visited + rest == args.Keys && visited !! rest
      invariant forall i :: 0 <= i < |order| ==> order[i] in args
      invariant Enumerates(order, visited)
      invariant opts == OptionsInOrder(args, order)
      decreases rest
    {
      var k :| k in rest;
      BuildStep(args, order, visited, k);
      opts := opts + [RenderOption(k, args[k])];
      order := order + [k];
      visited := visited + {k};
      rest := rest - {k};
    }
    assert visited == args.Keys;
    OptionVectorOfOrder(args, order, opts);
  }

  /** Go's `NewModel`: build the options, hand them to the engine's model
      factory, and fail with a fixed message when it returns NULL. */
  method NewModel(args: map<string, string>, modelNew: seq<string> -> Option<ModelHandle>)
    returns (r: Result<Model, string>)
    ensures r.Failure? ==> r.error == ModelNotCreated
    ensures exists opts :: IsOptionVector(args, opts) &&
              (if modelNew(opts).None? then r == Failure(ModelNotCreated)
               else r == Success(Model(modelNew(opts).value)))
  {
    var opts := BuildOptions(args);
    var model := modelNew(opts);
    if model.None? {
      return Failure(ModelNotCreated);
    }
    return Success(Model(model.value));
  }

  /** Go's `Model.NewMeCab`: ask the engine for a tagger on this model's handle,
      failing with a fixed message when it returns NULL. */
  function NewMeCab(m: Model, newTagger: ModelHandle -> Option<TaggerHandle>): (r: Result<MeCab, string>)
    ensures r.Failure? <==> newTagger(m.model).None?
    ensures r.Failure? ==> r.error == MeCabNotCreated
    ensures r.Success? ==> r.value.mecab == newTagger(m.model).value
  {
    var mecab := newTagger(m.model);
    if mecab.None? then Failure(MeCabNotCreated) else Success(MeCab(mecab.value))
  }
}

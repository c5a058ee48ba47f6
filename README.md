# go-mecab model layer, in Dafny

This project models `model.go` of the Go binding for the MeCab morphological
analyser: how `NewModel` turns a configuration map (`map[string]string`) into
the argument vector handed to the native engine, and how `NewModel` and
`Model.NewMeCab` wrap the native handle the engine returns, or fail with a
fixed message when the engine returns NULL.

- `wrappers.dfy` — module `Wrappers`: `Option` (a nullable native handle) and
  `Result` (Go's `(value, error)` pair).
- `model.dfy` — module `MeCabModel`: the option rendering, the option-building
  loop, its specification and the lemmas about it, and the two constructors.

The option vector is `--allocate-sentence`, then one option per map entry:
`--key=value`, or the bare `--key` when the value is empty. Go does not fix the
order in which `range` visits a map. `BuildOptions` therefore takes the next key
with `:|` from the keys not yet visited, so every proof holds for every
iteration order. Its specification is `IsOptionVector`: there is an order
(`IsKeyOrder` — every key exactly once) in which the vector is the fixed
option followed by the renderings of the entries. The lemmas then prove the
following:
- the vector has `len(args)+1` elements, starts with `--allocate-sentence`, and
  every element is a long option;
- as a multiset, the entries after the first are exactly the renderings of the
  map, whatever the order (`OptionVectorPermutation`,
  `OptionVectorOrderIndependent`);
- when no key contains `=`, a reference decoder, `ParseOption`, recovers the
  configuration. It splits each option at its first `=` after the dashes. The
  recovered pairs are exactly the map's pairs (`OptionVectorDecodes`).

The engine is abstract. Its model factory (`mecab_model_new`) is a parameter
`modelNew: seq<string> -> Option<ModelHandle>`, and its tagger factory
(`mecab_model_new_tagger`) is a parameter
`newTagger: ModelHandle -> Option<TaggerHandle>`. `None` stands for a NULL
return. Native handles are datatypes wrapping an address. Go strings are byte
strings; the model uses `string` (`seq<char>`). Rendering is plain
concatenation, so it is the same under either reading.

## Model

| member | source | states |
|---|---|---|
| `MeCabModel.RenderOption` | model.go:23-28 | every rendered entry begins with `--` |
| `MeCabModel.RenderOptionLayout` | model.go:24-27 | a rendered entry is `--`, then the key, then `=` and the value exactly when the value is non-empty; an empty value gives the bare `--key` |
| `MeCabModel.ParseRenderRoundTrip` | model.go:23-28 | for a key without `=`, decoding the rendered entry gives back exactly that key and value, in both the `--key=value` and the bare `--key` case |
| `MeCabModel.EnumeratesSize` | model.go:22 | an iteration order that visits each key exactly once is as long as the key set |
| `MeCabModel.EnumeratesCovers` | model.go:22 | such an iteration order visits every key of the map |
| `MeCabModel.EnumeratesAppend` | model.go:22 | visiting a not-yet-visited key extends an iteration order of the visited keys |
| `MeCabModel.RenderAll` | model.go:22-32 | the entry options have one element per visited key, element `i` being the option of the `i`-th key |
| `MeCabModel.RenderAllAppend` | model.go:31 | visiting one more key appends exactly its option (Go's `append`) |
| `MeCabModel.OptionsInOrder` | model.go:18-21 | the vector for a given order has one more element than there are keys and starts with `--allocate-sentence` |
| `MeCabModel.OptionsInOrderEntry` | model.go:22-31 | after the fixed option, element `i` is the option of the `i`-th key visited |
| `MeCabModel.OptionVectorShape` | model.go:18-32 | every option vector of a map has `len(args)+1` elements, starts with `--allocate-sentence`, consists of long options only, and contains the option of every map entry |
| `MeCabModel.RenderingsRemove` | model.go:22-32 | the multiset of entry options does not depend on which key is taken first |
| `MeCabModel.RenderAllRenderings` | model.go:22-32 | rendering the keys in any order that lists each exactly once yields exactly their multiset of options |
| `MeCabModel.OptionVectorPermutation` | model.go:22-32 | the elements after index 0 are a permutation of the options of the map's entries |
| `MeCabModel.OptionVectorOrderIndependent` | model.go:18-32 | two vectors built from the same map in any two iteration orders have the same length, the same first element and the same multiset of elements |
| `MeCabModel.OptionVectorEntriesDecode` | model.go:22-32 | when no key contains `=`, every entry option decodes to a key of the map paired with that key's value |
| `MeCabModel.OptionVectorCoversMap` | model.go:22-32 | when no key contains `=`, every map entry is decoded from some entry option |
| `MeCabModel.OptionVectorDecodes` | model.go:18-32 | when no key contains `=`, the first option decodes to `allocate-sentence` with no value and the rest decode to exactly the map's pairs, each present |
| `MeCabModel.BuildStep` | model.go:22-31 | one turn of the `range` loop visits a key not yet visited, extends the iteration order by it and appends exactly that key's option to the vector |
| `MeCabModel.OptionVectorOfOrder` | model.go:18-32 | the vector built for an order that visits every key exactly once is an option vector of the map: `len(args)+1` long options, `--allocate-sentence` first, every entry's option present, and after index 0 exactly the multiset of the entries' options |
| `MeCabModel.BuildOptions` | model.go:17-32 | the loop builds an option vector of the map for the order in which it visits the keys. So the vector has `len(args)+1` long options, starts with `--allocate-sentence`, contains every entry's option and holds after index 0 exactly the multiset of the entries' options |
| `MeCabModel.NewModel` | model.go:16-42 | for the option vector built from the map: a NULL engine model gives no Model and the error `mecab_model is not created.`; otherwise the result is a Model wrapping exactly the returned handle; every failure carries that message |
| `MeCabModel.NewMeCab` | model.go:49-55 | the call fails exactly when the tagger factory returns NULL for the model's handle, with the error `mecab is not created.`; otherwise it wraps exactly the returned tagger handle |

## Left out

- `Model.Destroy` (model.go:45-47): it calls the native destroy with no guard, so the code promises nothing about calling it twice; release-exactly-once behaviour is not modelled.
- `C.CString`, `C.free` and the `defer`red frees (model.go:19-20, 29-30): these are native memory management with no effect on the vector's contents.
- `C.CString` hands C a NUL-terminated copy, so an option containing a NUL character would reach the engine cut short at that character. The model passes whole strings to the abstract engine.
- The `C.int(len(opts))` conversion (model.go:35): the model uses unbounded lengths. A map with 2^31−1 or more entries (so that `len(args)+1` exceeds a 32-bit `C.int`) is not a realistic input.
- The engine's own parsing of its arguments, and its diagnostics: the factories are uninterpreted parameters. model.go does not pass on the engine's diagnostic text: it returns the fixed messages `mecab_model is not created.` and `mecab is not created.`, and the model follows the code.
- `ParseOption` is a reference decoder that serves as the partner of the rendering; it is not code of the binding. The decoding lemmas assume keys without `=`. The binding does not validate keys, and a key containing `=` makes renderings collide (`a=b` with an empty value renders like `a` with the value `b`).
- wordnode.go holds only the `WordNode` and `TokenizedWord` declarations. The word segmenter that fills them (`ParseToWordNodes`), the tagger's parse calls, lattices and node traversal live in files that are not part of this model.
- mecab_test.go: every test needs the real engine, a dictionary and an rc file. They are used only as evidence of how the binding is called.

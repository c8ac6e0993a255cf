# KeyTree in Dafny

KeyTree stores configuration as nested hashes addressed by dotted key paths
(`a.b.c`), and layers several such trees into a forest.

- **Reading:** a forest lookup takes the value from the first tree that has one.
- **Shadowing:** a tree that has the path but no value there can hide the trees after it.

This project models the core of the library and proves how it behaves. The
core consists of the key path, the deep-hash operations, the tree, the forest
and the conversions between them.

| file | module | models |
|---|---|---|
| `wrappers.dfy` | `Wrappers` | `Option`, and `Result` whose error is Ruby's `KeyError` |
| `path.dfy` | `Paths` | `KeyTree::Path` and `to_key_path` on String, Symbol and Array |
| `deep_hash.dfy` | `DeepHash` | Ruby hashes, `deep_fetch`, `deep_store`, `deep_delete`, `deep_merge`, `deep`, `deep_transform_keys`, `deep_key_pathify` |
| `deep_hash_props.dfy` | `DeepHashProps` | lemmas about the deep-hash operations |
| `tree.dfy` | `Trees` | `KeyTree::Tree`, a class whose `hash` field the mutating methods reassign |
| `forest.dfy` | `Forests` | `KeyTree::Forest`: the breadth-first `trees`, lookup, `fetch`, the tests, `flatten`, `key_paths` |
| `refinements.dfy` | `Refinements` | `to_key_wood`, `to_key_tree`, `to_key_forest` and `Forest[]` |

## How the model is built

**Hashes and values**
- A Ruby `Hash` is an insertion-ordered association list, `Entries<K>`.
- Assigning to an existing key keeps the key's position; assigning to a new key appends it.
- A hash is well formed (`WF`) when every level has distinct keys.
- A value is a `Leaf` holding nil, a boolean, an integer or a string, or a nested `Hash`.
- Symbols are strings, and a key path is a sequence of symbols.

**Resolving paths**
- A path resolves to a node (`Resolve`) through nested hashes.
- `deep_fetch` and the tree's reads succeed only at leaves.
- `prefix?` succeeds at any node.

**Operations that change a tree**
- Each is a method of `Trees.Tree`. It is proved equal to a function of the old hash: `DeepStore`, `StoreForced`, `DeepDelete`, `DeleteTrimmed` or `DeepMerge`.
- The lemmas about those functions carry the guarantees: the value lands at the path, nothing at a diverging path changes, well-formedness is kept.
- `store!` and `delete!` are the source's rescue-and-retry loops. The model proves that they terminate.

**Forests**
- A forest is a sequence of `Wood = T(Tree) | F(seq<Wood>)`, so it cannot be cyclic.
- `trees` is the source's growing worklist. It is proved equal to `LevelOrder`, which is shown to be level by level and to be a permutation of a depth-first enumeration.

**Where forest lookup falls short of its own comment**
- The comment on `Forest#[]` (`lib/key_tree/forest.rb:29-31`) says that when a closer tree contains a prefix of the key, that tree shadows matches in trees further away and the lookup gives nil.
- The loop below it (`lib/key_tree/forest.rb:36-41`) stops only at a tree for which `prefix?(key)` holds, that is, a tree that has the whole path (`lib/key_tree/tree.rb:114-121`). A tree holding only a proper prefix, such as `{a: {}}` for the key `a.b`, does not stop it.
- The model follows the code. `Forests.AncestorDoesNotShadow` proves that `{a: {}}` does not hide a later `a.b`, and `Forests.SubtreeShadows` proves that `{a: {b: {}}}` does.

## Model

| member | source | states |
|---|---|---|
| Paths.ToKeyPath | lib/key_tree/path.rb:33-37 | an Array keeps its elements as segments unsplit; a String or Symbol gives dot-free segments with no trailing empty one |
| Paths.SplitShape | lib/key_tree/refinements.rb:26-29 | String#split('.'): every field is dot-free and trailing empty fields are dropped |
| Paths.DottedStringExample | lib/key_tree/refinements.rb:26-29 | `'a.b'` and `[:a, :b]` give the same path; `''` gives the empty path; `'a.'` gives `[:a]` |
| Paths.PlainSymbol | lib/key_tree/refinements.rb:32-35 | a dot-free symbol or string is a one-segment path; symbols are split like strings |
| Paths.StringRoundTrip | lib/key_tree/path.rb:41-43 | `Path[s].to_s == s` exactly when s is empty or does not end in a dot |
| Paths.PathRoundTrip | lib/key_tree/path.rb:41-43 | for non-empty dot-free segments, `Path[p.to_s]` is p again |
| Paths.Path.constructor | lib/key_tree/path.rb:33-37 | Path.new(source) holds the converted segments of source |
| Paths.Path.Build | lib/key_tree/path.rb:17-21 | `Path[k1, k2, ...]` is a fresh path holding the concatenation of every source's segments in order |
| Paths.ConcatPathsAppend | lib/key_tree/path.rb:17-21 | the path of a list of sources concatenates the paths of its parts |
| Paths.Path.Append | lib/key_tree/path.rb:49-51 | `<<` extends this path in place by the other's segments |
| Paths.Path.Plus | lib/key_tree/path.rb:53-55 | `+` returns a fresh path with both paths' segments and leaves this one unchanged |
| Paths.Drop | lib/key_tree/path.rb:61-66 | drop succeeds exactly when q is a prefix of p, and then q followed by the result is p |
| Paths.Path.Prefix | lib/key_tree/path.rb:72-78 | the element-wise loop answers exactly whether the other path is a leading part of this one |
| Paths.PrefixOrder | lib/key_tree/path.rb:72-78 | prefix? is reflexive, antisymmetric and transitive, and the empty path is a prefix of every path |
| Paths.Conflict | lib/key_tree/path.rb:83-85 | nil for equal paths; otherwise true exactly when one path is a strict prefix of the other |
| Paths.ConflictSymmetric | lib/key_tree/path.rb:83-85 | conflict? is symmetric, and a conflict means exactly one direction of prefix? holds |
| DeepHash.DeepFetch | lib/key_tree/refine/deep_hash.rb:27-39 | a leaf at p is returned; on a miss the block's value for p, else the default, otherwise KeyError; the empty path always misses |
| DeepHashProps.FetchHitsLeaves | lib/key_tree/refine/deep_hash.rb:27-39 | a plain deep_fetch succeeds exactly at leaves, and every proper prefix of such a path leads to a Hash |
| DeepHashProps.StoreFailsIffBlocked | lib/key_tree/refine/deep_hash.rb:48-57 | deep_store raises exactly when its path is blocked |
| DeepHashProps.BlockedMeans | lib/key_tree/refine/deep_hash.rb:48-57 | blocked means that some proper non-empty prefix of the path holds a leaf |
| DeepHashProps.StoreResolves | lib/key_tree/refine/deep_hash.rb:48-57 | after a successful deep_store the path resolves to the stored value |
| DeepHashProps.StoreFrame | lib/key_tree/refine/deep_hash.rb:48-57 | deep_store changes nothing at any path that diverges from its path |
| DeepHashProps.StoreWF | lib/key_tree/refine/deep_hash.rb:48-57 | deep_store of a well-formed node keeps the hash well formed |
| DeepHashProps.DeleteFailsIff | lib/key_tree/refine/deep_hash.rb:65-74 | deep_delete raises exactly when the path minus its last key does not lead to a Hash |
| DeepHashProps.DeleteResult | lib/key_tree/refine/deep_hash.rb:65-74 | deep_delete returns what stood at the path (nil if nothing); afterwards the path resolves to nothing and its parent is still a Hash |
| DeepHashProps.DeleteFrame | lib/key_tree/refine/deep_hash.rb:65-74 | deep_delete changes nothing at any path that diverges from its path |
| DeepHashProps.MergeGet | lib/key_tree/refine/deep_hash.rb:97-106 | after merging, each key holds: the left value if only the left has it, the right value if only the right has it, both values merged deeply if both are hashes, and otherwise the block's value or the right value |
| DeepHashProps.MergeKeys | lib/key_tree/refine/deep_hash.rb:97-106 | the merged key order is the receiver's keys followed by the other's new keys in their order |
| DeepHashProps.MergeWF | lib/key_tree/refine/deep_hash.rb:81-90 | deep_merge! and deep_merge keep hashes well formed when the block does |
| DeepHashProps.MergeRightLeafWins | lib/key_tree/refine/deep_hash.rb:97-106 | without a block, every leaf of the other hash is found at its path in the result |
| DeepHashProps.MergeLeftLeafKept | lib/key_tree/refine/deep_hash.rb:97-106 | a receiver's leaf survives when the other hash has nothing at that path and no leaf above it |
| DeepHashProps.MergeIntoEmpty | lib/key_tree/refine/deep_hash.rb:97-106 | merging into an empty hash gives the other hash |
| DeepHashProps.MergeBlockOnlyOnClash | lib/key_tree/refine/deep_hash.rb:97-106 | the block plays no part when no key holds a leaf on both sides or a leaf on one side only |
| DeepHashProps.DeepShape | lib/key_tree/refine/deep_hash.rb:147-153 | every pair of deep extends the prefix by at least one key |
| DeepHashProps.DeepMember | lib/key_tree/refine/deep_hash.rb:147-153 | deep yields (q, n) exactly when q is a non-empty path resolving to n, internal nodes included |
| DeepHashProps.DeepExample | lib/key_tree/refine/deep_hash.rb:15-19 | deep of `{a: {b: 1, c: 2}, b: 3}` is `a`, `a.b`, `a.c`, `b`: pre-order in insertion order |
| DeepHashProps.TransformIsRekey | lib/key_tree/refine/deep_hash.rb:112-119 | with an injective key function, transform_keys renames the keys in place and keeps order and values |
| DeepHashProps.TransformResolve | lib/key_tree/refine/deep_hash.rb:112-119 | with an injective key function, the mapped path resolves to the transformed node, and leaf values are unchanged |
| DeepHashProps.TransformWF | lib/key_tree/refine/deep_hash.rb:112-119 | deep_transform_keys gives a well-formed hash |
| DeepHash.KeyPathify | lib/key_tree/refine/deep_hash.rb:139-145 | the loop that stores each pathified pair into the result computes Pathify |
| DeepHashProps.PathifyWF | lib/key_tree/refine/deep_hash.rb:139-145 | deep_key_pathify gives a well-formed hash |
| DeepHashProps.LaterKeyWins | lib/key_tree/refine/deep_hash.rb:139-145 | a later key's value replaces whatever earlier keys left at the same path: a leaf, or its own pathified Hash, which is not merged with the earlier subtree |
| DeepHashProps.EarlierLeafBlocks | lib/key_tree/refine/deep_hash.rb:139-145 | a later key raises KeyError when an earlier key left a leaf at a proper prefix of its path |
| DeepHashProps.PathifyExample | lib/key_tree/refine/deep_hash.rb:139-145 | `'a.b' => 2` and `[:a, :c] => 3` combine under `a` |
| DeepHashProps.PathifyRoundTrip | lib/key_tree/tree.rb:26-30 | a well-formed symbol hash whose keys are all non-empty and dot-free is unchanged by pathify, so `Tree[h].to_h == h` |
| DeepHashProps.MergePlain | lib/key_tree/refine/deep_hash.rb:97-106 | without a block, merging hashes with plain keys gives a hash with plain keys |
| Trees.DeleteTrimmedCuts | lib/key_tree/tree.rb:81-86 | delete! ends with one successful deep_delete, at the path cut one key past the hashes it leads through |
| Trees.DeleteTrimmedMisses | lib/key_tree/tree.rb:81-86 | after delete! nothing resolves at the path, and the hash stays well formed |
| Trees.DeleteTrimmedFrame | lib/key_tree/tree.rb:81-86 | delete! changes nothing at a path that diverges from its argument |
| Trees.TrimUnblocks | lib/key_tree/tree.rb:69-74 | when store raises, delete! clears the blocking leaf, so the retried store succeeds |
| Trees.StoreForcedResult | lib/key_tree/tree.rb:69-74 | after store! the path resolves to the value, every proper prefix is a Hash, diverging paths are unchanged and the hash is well formed |
| Trees.StoreForcedPrunes | lib/key_tree/refine/deep_hash.rb:56 | storing a leaf where a subtree stood removes all its descendants |
| Trees.Tree.Init | lib/key_tree/tree.rb:26-30 | sets the hash, the default and the default proc |
| Trees.Tree.New | lib/key_tree/tree.rb:22-30 | Tree.new pathifies the hash (KeyError when pathify raises) and keeps the default and the proc |
| Trees.Tree.FetchDefault | lib/key_tree/tree.rb:51-59 | a leaf is returned; on a miss the default proc's value, else the block's value for p, else the default, otherwise KeyError |
| Trees.Tree.Get | lib/key_tree/tree.rb:47-49 | `tree[p]` never raises: a leaf value, or else the default proc's value, or else the default |
| Trees.Tree.Fetch | lib/key_tree/tree.rb:61-63 | fetch ignores the tree's defaults: a leaf is returned; on a miss the block's value for p, else the given default, otherwise KeyError |
| Trees.Tree.ValuesAt | lib/key_tree/tree.rb:88-90 | one `tree[p]` per path, in order |
| Trees.Tree.IsKeyPath | lib/key_tree/tree.rb:103-108 | include? holds exactly at leaves, not at internal nodes |
| Trees.Tree.HasValue | lib/key_tree/tree.rb:124-126 | value?(x) holds exactly when some non-empty path resolves to a node == to x (Hash#==, blind to key order), subtrees included; a node found as is always counts |
| DeepHashProps.NodeEqRefl | lib/key_tree/tree.rb:124-126 | Ruby's == on a well-formed node or hash holds of that node itself |
| DeepHashProps.DeepValuesEq | lib/key_tree/tree.rb:124-126 | deep yields a value == to x exactly when some non-empty path resolves to one |
| Trees.HasValueReordered | lib/key_tree/tree.rb:124-126 | `Tree[{x: {a: 1, b: 2}}].value?({b: 2, a: 1})` holds: key order does not matter |
| Trees.Tree.Keys | lib/key_tree/tree.rb:96-100 | keys are the non-Hash paths of deep in order, exactly the paths with leaves |
| Trees.Tree.Prefix | lib/key_tree/tree.rb:114-121 | the walk with early returns answers exactly whether the path resolves, to a leaf or a subtree |
| Trees.Tree.Store | lib/key_tree/tree.rb:65-67 | store raises exactly when the path is blocked and then leaves the tree unchanged; otherwise the hash is deep_store's result |
| Trees.Tree.StoreBang | lib/key_tree/tree.rb:69-74 | the rescue-and-retry loop terminates, with the hash equal to StoreForced of the old hash |
| Trees.Tree.Delete | lib/key_tree/tree.rb:77-79 | delete raises exactly when deep_delete does, leaving the tree unchanged; otherwise it sets the hash to deep_delete's result |
| Trees.Tree.DeleteBang | lib/key_tree/tree.rb:81-86 | the retry loop, dropping the last key each time, terminates with DeleteTrimmed of the old hash |
| Trees.Tree.MergeBang | lib/key_tree/tree.rb:134-137 | merge! sets the hash to deep_merge of both hashes and keeps it well formed |
| Trees.Tree.Merge | lib/key_tree/tree.rb:145-147 | merge leaves both trees unchanged and returns a fresh tree built from the merged hash, with no default |
| Trees.MergeOfPlainTrees | lib/key_tree/tree.rb:145-147 | for plain keys without a block, the new tree's hash is exactly the deep merge |
| Trees.MergeKeepsOtherLeaves | lib/key_tree/tree.rb:145-147 | for trees with plain keys (non-empty, dot-free segments), without a block, every key path of the other tree carries the other's value in the merged tree |
| Trees.MergeLosesDottedSegment | lib/key_tree/tree.rb:145-147 | with a dotted segment the promise fails: merging `{:"a.b" => 1}` into an empty tree gives `{a: {b: 1}}`, so the path `[:"a.b"]` is lost |
| Forests.EnumTrees | lib/key_tree/forest.rb:98-107 | the worklist that grows while it is walked yields exactly LevelOrder |
| Forests.Levels | lib/key_tree/forest.rb:98-107 | the top-level trees come first, in order, then the trees of the nested forests |
| Forests.LevelOrderComplete | lib/key_tree/forest.rb:98-107 | every tree reachable through nested forests is yielded exactly as often as it occurs |
| Forests.At | lib/key_tree/forest.rb:34 | a numeric key indexes the entries, counting from the end when negative, and gives nil out of range |
| Forests.LookupDecided | lib/key_tree/forest.rb:33-42 | the first tree that answers non-nil, or that has the path, decides `forest[p]` |
| Forests.LookupPasses | lib/key_tree/forest.rb:33-42 | when no tree answers or has the path, `forest[p]` is nil |
| Forests.Get | lib/key_tree/forest.rb:33-42 | the early-return loop computes Lookup over the trees in level order |
| Forests.AncestorDoesNotShadow | lib/key_tree/forest.rb:36-41 | `{a: {}}` followed by `{a: {b: 1}}` gives 1 for `a.b` |
| Forests.SubtreeShadows | lib/key_tree/forest.rb:36-41 | `{a: {b: {}}}` hides `a.b` of a later tree from `[]` but not from fetch |
| Forests.FirstFetch | lib/key_tree/forest.rb:52-62 | no value is found exactly when no tree has a leaf at the path |
| Forests.FirstFetchIs | lib/key_tree/forest.rb:52-62 | the first tree with a leaf at the path gives the value, whatever defaults or shadowing earlier trees have |
| Forests.Fetch | lib/key_tree/forest.rb:52-62 | the first tree's leaf, or else the block, else the default, else KeyError |
| Forests.AnyKeyPath | lib/key_tree/forest.rb:64-66 | key? holds exactly when some tree has a leaf at the path |
| Forests.HasKeyPath | lib/key_tree/forest.rb:74-76 | key_path? holds exactly when some tree among the forest's trees has a leaf at the path |
| Forests.AnyPrefix | lib/key_tree/forest.rb:69-71 | some tree in the sequence has the path |
| Forests.HasPrefix | lib/key_tree/forest.rb:69-71 | prefix? holds exactly when some tree among the forest's trees has the path |
| Forests.Include | lib/key_tree/forest.rb:79-86 | a tree or forest is looked for among the entries; anything else falls back to key_path? |
| Forests.KeyPathsOf | lib/key_tree/forest.rb:110-112 | the union of the trees' key paths holds exactly the paths some tree has a leaf at |
| Forests.KeyPaths | lib/key_tree/forest.rb:110-112 | key_paths holds exactly the paths for which key_path? holds, shadowed ones included |
| Forests.Flatten | lib/key_tree/forest.rb:90-94 | a fresh tree with no default whose hash merges the trees in reverse order into an empty hash |
| Forests.FlattenedWF | lib/key_tree/forest.rb:90-94 | the flattened hash is well formed |
| Forests.FlattenSingle | lib/key_tree/forest.rb:90-94 | flattening a single tree gives that tree's hash |
| Forests.FlattenFirstWins | lib/key_tree/forest.rb:90-94 | without a merger, the earliest tree's leaf wins when earlier trees leave that path free |
| Refinements.ToKeyWood | lib/key_tree/refinements.rb:9-23 | a Hash becomes a tree over its pathified hash with no default; an Array becomes a forest converted element by element; KeyError exactly when some hash fails to pathify |
| Refinements.ForestOf | lib/key_tree/forest.rb:16-20 | `Forest[*contents]` has as many entries as contents, each the conversion of its content in order |

## Left out

- **I/O:** loading files, the loader registry, `to_json` and `to_yaml` (lib/key_tree.rb, the loaders, lib/key_tree/tree.rb:37-45). They call external parsers and serialisers and are not part of this model.
- **Metadata and version:** `meta_data.rb` and `version.rb` hold no logic.
- **key_path_ext.rb:** it repeats the path refinements, which `Paths.ToKeyPath` already covers.
- **Aliasing of nested hashes:**
  - The model uses value semantics.
  - Ruby's `merge!`, `flatten` and `to_h` share nested hashes between trees, so a later in-place change can show up in another tree. The model does not show this.
  - Nested hashes are updated in place in Ruby; the model rebuilds them with the same contents.
  - Forests are sequences of entries, not mutable Arrays.
- **deep_transform_keys!:** modelled by the same function as `deep_transform_keys`. The in-place version can order colliding keys differently, and the model does not capture that.
- **deep_merge!:** modelled by the same function as `deep_merge`. The only difference is that Ruby updates the receiver in place.
- **DeepHash.DeepStore:** requires a non-empty path. In Ruby `deep_store` with the empty path stores under the `nil` key, which a symbol-keyed tree cannot hold.
- **Trees.Tree.Store:** requires a non-empty path, for the same reason.
- **Trees.Tree.StoreBang:** requires a non-empty path, for the same reason.
- **DeepHash.KeyPathify:** requires that no key reads as the empty path, for the same reason.
- **Trees.Tree.Merge:** requires the same of the merged hash, for the same reason.
- **Trees.Tree.DeleteBang:** trims the last segment of the key path. Ruby trims the last character of a String argument. That keeps raising until it reaches the segment boundary, so the two agree except for paths with empty segments.
- **Trees.Tree.FetchDefault:** the default proc is called with the tree's hash and the converted path. Ruby passes the tree and the unconverted key. The forest's fetch block likewise receives the converted path.
- **Paths.Conflict:** takes a Path as its argument. Ruby does not convert the argument of `conflict?`: a String or Symbol never equals a Path, so `Path['a.b'].conflict?('a.b')` is true, and calling `prefix?` on a String raises NoMethodError. The model leaves those calls out.
- **Trees.MergeKeepsOtherLeaves:** stated only for trees whose keys are non-empty, dot-free segments. `merge` re-pathifies the merged hash, so a segment stored whole through an Array path is split again: after `t = Tree[]; t[[:"a.b"]] = 1`, `Tree[].merge(t)` holds `{a: {b: 1}}` and loses `t`'s key path `[:"a.b"]` (`Trees.MergeLosesDottedSegment`). An empty segment cannot be re-pathified at all.
- **Nested hash values:** a value given to `store` or `store!` is stored as given, without pathifying its keys, as in Ruby.
- **Keys and values:** keys the model cannot represent (Float, Integer and other non-symbol keys) are out of scope, as are values other than nil, booleans, integers, strings and hashes. Ruby raises NoMethodError for most of them.
- **Laziness and cycles:** `trees` is a finite sequence built by the worklist, not a lazy Enumerator. Cyclic forests cannot be expressed.
- **DeepHashProps.TransformIsRekey, DeepHashProps.TransformResolve:** stated for injective key functions. With a colliding key function the later key's subtree replaces the earlier one; the model computes that but the lemmas say nothing about it.

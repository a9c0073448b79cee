# drf-json-schema in Dafny

A model of the core of `rest_framework_json_schema`, a library that turns
Django REST framework serializer output into JSON:API documents and parses
JSON:API request bodies back. The model covers:

- **Resource schemas** (`schema.py`). A schema is a class declaring an id
  field, a resource type, attributes, relationships, a name transformer,
  links and meta. `ResourceObject.__init__` caches each declared name's
  transformed ("wire") name. `render` then produces the JSON:API resource
  object and the flat list of included resources. It:
  - applies sparse fieldsets;
  - rejects unknown include keys;
  - recurses into included targets one level down the include tree.

  `parse` reads a resource object back into an internal dictionary.
  `RelationshipObject` and `ResourceIdObject` do the same at the
  relationship level.
- **The include parameter** (`utils.py`). `parse_include` turns
  `a,a.b,a.c.d` into a tree of nested dictionaries.
- **Name transformers** (`transforms.py`): the identity,
  snake_case to camelCase, and camelCase to snake_case.
- **The renderer** (`renderers.py`). It reads `include` and
  `fields[type]` from the query, renders a single object or a list as
  primary data, and assembles the top-level document:
  - `jsonapi`;
  - `errors` or `data`/`included`, or the data moved under `meta` when it
    has no schema;
  - `meta` and `links`.
- **Filter parameters** (`filters.py`): `filter[name]` query parameters,
  their names passed through a transformer.
- **Generated schemas** (`auto.py`). `from_serializer` builds a schema from
  a serializer's fields. The `auto_schema` descriptor generates it on first
  access and caches it.
- **Date formatting** (`datetime.py`): `api_format` writes a UTC offset as
  `Z`.

The Python values the library handles are one datatype, `Values.Value`.
Dictionaries are ordered sequences of pairs (`Values.Dict`) with Python's
dictionary semantics:
- assigning to an existing key keeps its position;
- assigning to a new key appends it;
- `update` writes pairs in order.

Every exception the code raises is an `Error` value in a `Result`. This
includes a missing id field (`KeyError`), an unknown include key
(`IncludeInvalid`), a type mismatch on parse (`TypeConflict`), a schema-less
payload (`NoSchema`), the camelCase-to-underscore transformer on an empty
name (`IndexError`), a model without a primary key (`ValueError`), and
relationship data that is neither an identifier nor a sequence of them
(`AttributeError`/`TypeError`).

Three behaviours are modelled as written:
- `CamelCaseToUnderscoreTransform` turns a name with a leading capital into
  one with an extra one-letter word (`Foo` becomes `f_foo`).
- A model serializer without a primary key is rejected even when the
  keyword arguments name an id, because the lookup runs before they are
  applied.
- Rendered relationship `data` copies a falsy value verbatim, so `None`
  and `[]` stay distinct.

Module layout, following the package:

| file | module | models |
|---|---|---|
| wrappers.dfy | `Wrappers` | `Option`, `Result` |
| values.dfy | `Values` | Python values, ordered dictionaries, `str()`, truthiness, exceptions |
| strings.dfy | `Strings` | `str.split`, `str.join`, ASCII case mapping |
| query.dfy | `QueryKeys` | the `fields[...]` and `filter[...]` key patterns |
| transforms.dfy | `Transforms` | `transforms.py` |
| include.dfy | `Include` | `utils.parse_include` and the include tree |
| schema.dfy | `Schema` | schema declarations, construction, `Context`, `filter_by_fields` |
| render.dfy | `Rendering` | `render`, `render_attributes`, `render_relationships`, `render_relationship`, relationship and identifier rendering, `render_included` |
| render_facts.dfy | `RenderingFacts` | properties of rendering |
| parse.dfy | `Parsing` | `ResourceObject.parse`, `RelationshipObject.parse` |
| roundtrip.dfy | `RoundTrip` | parsing a rendered object gives the data back |
| renderers.dfy | `Renderers` | `JSONAPIRenderer` |
| document_facts.dfy | `DocumentFacts` | properties of the rendered document |
| filters.dfy | `Filters` | `get_query_filters` |
| auto.dfy | `Auto` | `from_serializer`, `AutoSchemaDescriptor`, `auto_schema` |
| datetime.dfy | `DateTime` | `api_format` |

## Model

| member | source | states |
|---|---|---|
| Values.Find | rest_framework_json_schema/schema.py:122 | A lookup finds a value exactly when the key is one of the dictionary's keys |
| Values.Put | rest_framework_json_schema/filters.py:26 | Item assignment: the key maps to the new value and every other key keeps its value. An existing key stays in place and the length is unchanged; a new key is appended. Distinct keys stay distinct |
| Values.Update | rest_framework_json_schema/renderers.py:157-159 | `dict.update`: the keys are the union of both key sets, and keys the update does not name keep their old values |
| Values.UpdateFind | rest_framework_json_schema/renderers.py:157-159 | After `update`, every key of the argument maps to its value there |
| Strings.Split | rest_framework_json_schema/utils.py:28 | `str.split` never returns an empty list, no piece contains the separator, and joining the pieces with the separator gives back the string |
| Strings.SplitJoin | rest_framework_json_schema/utils.py:28-31 | Splitting a join of separator-free pieces gives the pieces back: the inverse direction of `Split`'s round trip |
| QueryKeys.MatchBracketed | rest_framework_json_schema/filters.py:8 | A match yields a non-empty name of allowed characters, and the key is the prefix, the name and `]`, optionally followed by the one newline `$` tolerates |
| QueryKeys.MatchBracketedKey | rest_framework_json_schema/renderers.py:13 | Every well-formed bracketed key matches, with or without the final newline, and gives back its name |
| Transforms.Transform | rest_framework_json_schema/transforms.py:3-31 | A transformer fails exactly when it is camelCase-to-underscore applied to the empty name |
| Transforms.NullTransformIsIdentity | rest_framework_json_schema/transforms.py:3-5 | `NullTransform` returns the name unchanged |
| Transforms.TransformNonEmpty | rest_framework_json_schema/transforms.py:3-31 | Every transformer accepts every non-empty name |
| Transforms.CamelCase | rest_framework_json_schema/transforms.py:8-15 | The camelCase result never contains `_` |
| Transforms.CamelCaseOfJoin | rest_framework_json_schema/transforms.py:12-15 | Words joined by `_`: the first word is kept and every later word is capitalised and appended |
| Transforms.CamelCaseThree | rest_framework_json_schema/transforms.py:12-15 | Three `_`-free words joined by `_` become the first word followed by the other two capitalised |
| Transforms.CamelCaseSingleWord | tests/test_transforms.py:10 | `one` stays `one` |
| Transforms.CamelCaseToUnderscore | rest_framework_json_schema/transforms.py:18-31 | The conversion fails exactly on the empty name, where indexing the first character raises |
| Transforms.UnderscorePerChar | rest_framework_json_schema/transforms.py:18-31 | Per character, the word-scanning loop computes this: every upper-case character after the first becomes `_` plus its lower-case form, every other character is kept, and a leading upper-case character also produces a one-letter word of its own |
| Transforms.UnderscoreNoUpperIdentity | rest_framework_json_schema/transforms.py:18-31 | A non-empty name without upper-case letters comes back unchanged |
| Transforms.UnderscoreSingleWord | tests/test_transforms.py:18 | `one` stays `one` |
| Transforms.UnderscoreThreeWords | tests/test_transforms.py:19 | `oneTwoThree` becomes `one_two_three` |
| Transforms.UnderscoreLeadingCapital | rest_framework_json_schema/transforms.py:23-29 | A leading capital produces an extra word: `Foo` becomes `f_foo` |
| Transforms.CamelRoundTrip | rest_framework_json_schema/transforms.py:12-31 | For well-formed snake_case words, converting to camelCase and back gives the original name |
| Transforms.UnderscoreOfCamel | rest_framework_json_schema/transforms.py:18-31 | The camelCase form of snake_case words converts back to the words joined by `_` |
| Include.Child | rest_framework_json_schema/schema.py:216 | `include.get(name, {})`: an absent key gives the empty tree |
| Include.ChildDepth | rest_framework_json_schema/schema.py:213-216 | Descending into a present key strictly lowers the tree's depth, and an absent key never raises it. This bounds the rendering recursion |
| Include.SetChildShape | rest_framework_json_schema/utils.py:34-35 | Setting a key replaces its first entry in place, or appends a new entry when the key is absent |
| Include.SetChildLookup | rest_framework_json_schema/utils.py:34-36 | After setting a key, it is present with the new subtree, and every other key is unchanged |
| Include.InsertPaths | rest_framework_json_schema/utils.py:31-36 | Inserting a dotted path adds exactly the prefixes of its components to the tree's paths |
| Include.EmptyPaths | rest_framework_json_schema/utils.py:27 | The empty tree holds only the empty path |
| Include.AddAllPaths | rest_framework_json_schema/utils.py:29-36 | The loop over entries adds exactly the prefixes of the non-empty entries |
| Include.ParseIncludePaths | rest_framework_json_schema/utils.py:6-37 | The paths of the parsed tree are the empty path plus every prefix of a non-empty comma-separated entry's dotted components, and nothing else |
| Include.ParseIncludeSetDetermined | rest_framework_json_schema/utils.py:6-37 | The resulting dictionary depends only on the set of entries: reordering or repeating entries gives an equal dictionary |
| Include.CoveredByEntries | rest_framework_json_schema/utils.py:28-31 | A path is covered by the split entries exactly when it is a prefix of some entry in the entry set |
| Include.ParseInclude | rest_framework_json_schema/utils.py:6-37 | No level of the tree repeats a key, because each component is merged into an existing key with `setdefault` |
| Include.ParseIncludeEmpty | tests/test_utils.py:4-6 | `''` gives `{}` |
| Include.ParseIncludeSingle | tests/test_utils.py:9-11 | `'a'` gives `{'a': {}}` |
| Include.ParseIncludeTrailingDot | rest_framework_json_schema/utils.py:30-36 | An empty dotted component is kept as a key: `a.` gives `{'a': {'': {}}}` |
| Include.ParseIncludeMerges | tests/test_utils.py:14-16 | `a,a.b,a.c.d,e.f,g` gives the documented nested tree, merging shared prefixes |
| Schema.TransformFields | rest_framework_json_schema/schema.py:100-103 | Succeeds exactly when the transformer accepts every attribute name, and pairs each name, in order, with its transform |
| Schema.TransformRelationships | rest_framework_json_schema/schema.py:105-114 | Succeeds exactly when every relationship name transforms. Each relationship is normalised in order: a bare name gets a default relationship object, and every name gets its transform |
| Schema.NewResourceObject | rest_framework_json_schema/schema.py:95-114 | Construction fails, with `IndexError`, exactly when the camelCase-to-underscore transformer meets an empty attribute or relationship name. Otherwise it keeps the id field, type, links and meta, and records each declared name with its transformed name, in order |
| Schema.ChildContext | rest_framework_json_schema/schema.py:213-217 | The relationship's context keeps the request and fieldsets and descends into the include subtree, empty when the name is absent, strictly shallower when present |
| Schema.Keep | rest_framework_json_schema/schema.py:198 | A generator filter: the result is an order-preserving subsequence holding each kept element as often as the input does, and nothing else |
| Schema.FilterByFields | rest_framework_json_schema/schema.py:239-252 | Without a fieldset for the type, everything is kept. With one, exactly the items whose transformed name the fieldset lists are kept, in declared order, with their multiplicities |
| Rendering.FirstInvalid | rest_framework_json_schema/schema.py:189-192 | No key is reported exactly when every include key names a relationship. Otherwise the first invalid key in include order is reported |
| Rendering.Render | rest_framework_json_schema/schema.py:153-173 | A missing id field raises `KeyError` for it. Otherwise rendering succeeds exactly when the relationships render. The object always starts with `id`, as a string, and `type` |
| RenderingFacts.AttrEntriesKeys | rest_framework_json_schema/schema.py:178-182 | The attribute block's keys are the wire names of exactly the fields the data holds |
| RenderingFacts.AttrEntriesExact | rest_framework_json_schema/schema.py:178-182 | With distinct wire names, the attribute block is the present fields' wire names and values, in declared order |
| RenderingFacts.SubseqDistinct | rest_framework_json_schema/schema.py:248-252 | Filtering (an order-preserving subsequence) preserves distinct wire names |
| RenderingFacts.RenderAttributesKeys | rest_framework_json_schema/schema.py:175-182 | The keys are the wire names of exactly the declared attributes that the fieldset keeps and the data holds |
| RenderingFacts.RenderAttributesExact | rest_framework_json_schema/schema.py:175-182 | With distinct wire names, the block is exactly the kept, present attributes' wire names and values, in declared order |
| Rendering.RenderRelationships | rest_framework_json_schema/schema.py:184-206 | An include key that names no declared relationship raises `IncludeInvalid`. Its exact message and the rest of the block are stated by `RenderingFacts.RejectedKeyIsFirst`, `RenderingFacts.RenderRelationshipsKeys` and `RenderingFacts.RenderRelationshipsFind` |
| RenderingFacts.RenderRelsSnoc | rest_framework_json_schema/schema.py:199-204 | One loop step: the relationship's block is assigned under its wire name and its included resources are appended last |
| RenderingFacts.RenderRelsKeys | rest_framework_json_schema/schema.py:199-204 | The loop's block has exactly the wire names of the relationships it renders as keys |
| RenderingFacts.RenderRelsFind | rest_framework_json_schema/schema.py:199-204 | Each relationship's entry is its own rendered block, unless a later relationship with the same wire name overwrote it |
| RenderingFacts.SparseRelationshipsDistinct | rest_framework_json_schema/schema.py:194-198 | Filtering by fieldset and by presence in the data keeps relationship wire names distinct |
| RenderingFacts.RenderRelationshipsKeys | rest_framework_json_schema/schema.py:184-206 | The block's keys are the wire names of exactly the declared relationships that the fieldset keeps and the data holds |
| RenderingFacts.RenderRelationshipsFind | rest_framework_json_schema/schema.py:184-206 | With distinct wire names, each such relationship's entry is its own rendered relationship object |
| RenderingFacts.RenderRelationshipIncluded | rest_framework_json_schema/schema.py:208-219 | A rendered relationship adds its targets' blocks to `included` exactly when its name is an include key and its value is truthy, and nothing otherwise |
| RenderingFacts.RenderRelsIncluded | rest_framework_json_schema/schema.py:199-204 | The loop's included list is the concatenation, in rendering order, of each relationship's contribution |
| RenderingFacts.RenderIncludedOrder | rest_framework_json_schema/schema.py:162-173 | The resource's included list is the concatenation, in declared order, of what the rendered relationships named by include keys contribute. Other relationships contribute nothing |
| RenderingFacts.RenderRejectsUnknownInclude | rest_framework_json_schema/schema.py:188-192 | An include key that names no relationship raises `IncludeInvalid` before any relationship is rendered. The outcome does not depend on the data or the fieldsets |
| RenderingFacts.RejectedKeyIsFirst | rest_framework_json_schema/schema.py:189-192 | The error message names the first invalid key in include order |
| RenderingFacts.IdBlocksAll | rest_framework_json_schema/schema.py:346 | A sequence of identifiers renders element by element. Any non-identifier item raises `AttributeError` |
| RenderingFacts.RelDataShapes | rest_framework_json_schema/schema.py:331-346 | Relationship `data`: a falsy value is copied verbatim, one identifier is rendered, a list of identifiers is rendered in order, and a list with anything else raises |
| Rendering.RelRender | rest_framework_json_schema/schema.py:320-355 | The block starts with `data`, the rendered relationship data. A relationship that is not included, or whose value is falsy, includes nothing, and then renders exactly when its data renders |
| RenderingFacts.RelRenderIncludeIndependent | rest_framework_json_schema/schema.py:320-355 | The relationship block is the same whether or not it is included. An unincluded relationship includes nothing |
| RenderingFacts.IncludeWithoutTarget | rest_framework_json_schema/schema.py:280-296 | Including an identifier that supplies no schema and data raises `IncludeInvalid` |
| RenderingFacts.IncludedAllAppend | rest_framework_json_schema/schema.py:340-344 | The included list of concatenated targets is the concatenation of their included lists. The first error wins |
| Rendering.RenderIncluded | rest_framework_json_schema/schema.py:311-318 | An identifier without a schema and data raises `IncludeInvalid`. Otherwise it succeeds only when the target renders, and contributes one block plus the target's own included list |
| RenderingFacts.IncludedOne | rest_framework_json_schema/schema.py:311-318 | One target contributes its rendered block followed by what its own rendering includes |
| RenderingFacts.IncludedAllLength | rest_framework_json_schema/schema.py:340-344 | Nothing is deduplicated: every target contributes at least its own block |
| RenderingFacts.RenderWithoutInclude | rest_framework_json_schema/schema.py:208-219 | With an empty include tree, rendering includes nothing |
| Parsing.ParseIds | rest_framework_json_schema/schema.py:364-365 | The ids of a list of identifiers, in order. This fails exactly when some item has no `id` to subscript, and never with `TypeConflict` |
| Parsing.Parse | rest_framework_json_schema/schema.py:116-151 | `TypeConflict` is raised exactly when `type` is missing or differs from the schema's type. A truthy id always ends up under the id field |
| Parsing.ParseAttrs | rest_framework_json_schema/schema.py:131-139 | Parsing attributes never raises `TypeConflict`, and keys already in the result stay |
| Parsing.ParseRels | rest_framework_json_schema/schema.py:140-150 | Parsing relationships never raises `TypeConflict`, and keys already in the result stay |
| Parsing.ParseRelsObject | rest_framework_json_schema/schema.py:140-150 | From a relationships object, parsing fails with the error of the first present relationship object that does not parse. Otherwise each name takes the parse of the last declared relationship with that name present under its wire name, and other names keep what they had |
| Parsing.ParseObject | rest_framework_json_schema/schema.py:116-151 | With object-valued (or falsy) `attributes` and `relationships`, a well-typed payload fails exactly with the first relationship object that does not parse. Otherwise each key holds the last present relationship's parse, else the last present attribute's value, else the truthy id under the id field |
| Parsing.ParseAttrsObject | rest_framework_json_schema/schema.py:131-139 | From an attributes object, each name takes the value of the last declared attribute with that name present under its wire name. Other names keep what they had, and parsing does not fail |
| Parsing.RelParseShapes | rest_framework_json_schema/schema.py:357-368 | A list of identifiers gives their ids in order. An object gives its id. Anything else, including a missing `data`, gives `None` |
| RoundTrip.AttrEntriesFind | rest_framework_json_schema/schema.py:178-182 | With distinct wire names, a rendered attribute under its wire name holds exactly the data's value under its internal name |
| RoundTrip.AttributesRoundTrip | rest_framework_json_schema/schema.py:131-139 | Parsing rendered attributes gives back each attribute the data holds, under its internal name. Absent attributes keep the accumulator's value |
| RoundTrip.BlockMembers | rest_framework_json_schema/schema.py:155-164 | In a block laid out as `render` lays it out, `dict.get` finds the id, the type, and the attributes and relationships when they are non-empty |
| RoundTrip.RenderedMembers | rest_framework_json_schema/schema.py:153-173 | A rendered object holds the id string, the type, and non-empty attribute and relationship blocks under their members |
| RoundTrip.ParseRender | rest_framework_json_schema/schema.py:116-173 | For a schema without relationships, a rendered object without a sparse fieldset parses back. Every attribute comes back with the data's value, an absent one stays absent, and the id comes back as its rendered string unless that is empty |
| RoundTrip.RenderIdHasId | rest_framework_json_schema/schema.py:270-278 | A rendered identifier holds its id, as a string, under `id` |
| RoundTrip.RelRenderData | rest_framework_json_schema/schema.py:331-346 | A rendered relationship's `data` member is the rendered identifier data |
| RoundTrip.ParseIdentBlocks | rest_framework_json_schema/schema.py:363-365 | Parsing a list of rendered identifiers gives back their ids, in order |
| RoundTrip.RelationshipRoundTrip | rest_framework_json_schema/schema.py:320-368 | Parsing a rendered relationship gives the target's id, or each target's id in order, as rendered strings. `None` stays `None` |
| Renderers.QueryGet | rest_framework_json_schema/renderers.py:101 | `query_params.get`: the first value for the key, or the default when it is absent |
| Renderers.GetInclude | rest_framework_json_schema/renderers.py:97-103 | Without a request, the empty tree. Otherwise the include tree's paths are exactly the prefixes of the listed dotted paths, and it repeats no key |
| Renderers.FieldsFrom | rest_framework_json_schema/renderers.py:110-113 | Every fieldset comes from some `fields[type]` parameter |
| Renderers.FieldsFromLastWins | rest_framework_json_schema/renderers.py:110-113 | A type's fieldset is the comma-split value of its last parameter. Joining the fieldset back gives that value |
| Renderers.GetFields | rest_framework_json_schema/renderers.py:105-114 | Without a request there are no fieldsets |
| Renderers.Collect | rest_framework_json_schema/renderers.py:47-54 | The loop succeeds exactly when every item renders, and gives their blocks in order. Otherwise it raises the first item's error |
| Renderers.CollectIncluded | rest_framework_json_schema/renderers.py:47-54 | The included resources are those of the items, concatenated in order, duplicates kept |
| Renderers.RenderList | rest_framework_json_schema/renderers.py:35-54 | Succeeds exactly when every item renders with the schema, and otherwise raises the first failing item's error. The primary data is the items' blocks, in order, and the included resources are the items' included lists concatenated in order |
| Renderers.RenderData | rest_framework_json_schema/renderers.py:56-73 | Without a schema it raises `NoSchema`. A value that is neither a dictionary nor a list gives no data. A dictionary is rendered by the schema in the context of the request, the include tree and the fieldsets, giving its block and its included list. A list gives, per item, the block the schema renders for it, and the items' included lists in order. Schema construction and rendering errors propagate unchanged |
| Renderers.RenderDocument | rest_framework_json_schema/renderers.py:116-169 | Produces nothing (empty bytes) exactly for `None` data or a missing context. A context without a response raises `KeyError` |
| DocumentFacts.DocumentParts | rest_framework_json_schema/renderers.py:130-167 | A produced document is `jsonapi`, then the body, then `meta`, then `links`, each present only when non-empty |
| DocumentFacts.DocumentMembers | rest_framework_json_schema/renderers.py:130-167 | Each top-level member is found in the part that owns it: `jsonapi` when truthy, `meta` and `links` when non-empty |
| DocumentFacts.BodyPrimary | rest_framework_json_schema/renderers.py:144-151 | On the primary-data path the body holds the data and no `errors`. It holds `included` exactly when something was included |
| DocumentFacts.DocumentErrors | rest_framework_json_schema/renderers.py:141-142 | An exception response renders as a one-element `errors` list holding the data, with neither `data` nor `included` |
| DocumentFacts.DocumentPrimary | rest_framework_json_schema/renderers.py:144-151 | Rendered primary data is the `data` member. `included` is present exactly when something was included, listing it in order. There is no `errors` |
| DocumentFacts.DocumentNoSchema | rest_framework_json_schema/renderers.py:152-159 | Data without a schema is not primary data: it goes into `meta` under `data`, unless the data's own `meta` overrides that key |
| DocumentFacts.DocumentRenderError | rest_framework_json_schema/renderers.py:144-155 | Any rendering error other than `NoSchema` propagates out of the renderer |
| DocumentFacts.DocumentMeta | rest_framework_json_schema/renderers.py:135-165 | The top-level `meta` overlays the data's `meta` on the renderer's: a key takes its value from the data's `meta` when it is there, else from the renderer's |
| DocumentFacts.DocumentLinksAndVersion | rest_framework_json_schema/renderers.py:132-167 | `links` is present exactly when the data has links, and holds them. `jsonapi` is present exactly when the renderer's is truthy, and comes first |
| Filters.PutTargets | rest_framework_json_schema/filters.py:23-26 | The loop's result is never longer than the parameters and never repeats a key |
| Filters.PutTargetsKeys | rest_framework_json_schema/filters.py:23-26 | A key is in the result exactly when some parameter targets it |
| Filters.PutTargetsLastWins | rest_framework_json_schema/filters.py:23-26 | A key holds the value of the last parameter that targets it |
| Filters.GetQueryFilters | rest_framework_json_schema/filters.py:11-28 | The filters never repeat a key and are no more than the parameters |
| Filters.GetQueryFiltersKeys | rest_framework_json_schema/filters.py:23-26 | A key is a filter exactly when some `filter[name]` parameter's transformed name is that key |
| Filters.GetQueryFiltersLastWins | rest_framework_json_schema/filters.py:23-26 | A filter's value is that of the last parameter whose transformed name is its key |
| Filters.ExampleNames | rest_framework_json_schema/filters.py:8 | `filter[name]` and `filter[lastName]` match with their names. `limit` does not match |
| Filters.LastNameSnake | rest_framework_json_schema/transforms.py:18-31 | The camelCase-to-underscore transformer keeps `name` and turns `lastName` into `last_name` |
| Filters.TwoFilters | rest_framework_json_schema/filters.py:11-28 | Two filter parameters and one other parameter give the two filters in order under their transformed names, the second overwriting the first when the names coincide |
| Filters.FilterExamples | tests/test_filters.py:5-28 | The documented example, with and without the camelCase-to-underscore transformer |
| DateTime.ApiFormat | rest_framework_json_schema/datetime.py:3-10 | A trailing `+00:00` is replaced by `Z`, keeping the text before it. Anything else is unchanged. The result never ends in `+00:00` |
| DateTime.ApiFormatIdempotent | rest_framework_json_schema/datetime.py:3-10 | Formatting a formatted string changes nothing |
| DateTime.ApiFormatKeepsPrefix | rest_framework_json_schema/datetime.py:8-9 | A timestamp with a UTC offset keeps the date and time and ends in `Z` |
| DateTime.ApiFormatOtherOffset | rest_framework_json_schema/datetime.py:8-10 | Other offsets, and an existing `Z`, are left alone |
| Auto.FirstPrimaryKey | rest_framework_json_schema/auto.py:42-45 | The loop finds the first primary-key field, or none exactly when no field is a primary key |
| Auto.ResolveIdField | rest_framework_json_schema/auto.py:37-51 | A given id field is used as is. A non-model serializer uses `id`. A model serializer uses its first primary key's attribute name, and raises `ValueError` exactly when that is missing or empty |
| Auto.NamesWhere | rest_framework_json_schema/auto.py:53-58 | The names of the fields other than the id field with the given relatedness, as an order-preserving subsequence of the field names |
| Auto.Partition | rest_framework_json_schema/auto.py:53-58 | Attributes are exactly the non-related fields other than the id field, and relationships exactly the related ones, each in declared order |
| Auto.PartitionCounts | rest_framework_json_schema/auto.py:53-58 | Nothing is lost or duplicated: across both lists each name occurs as often as among the fields, except names equal to the id field |
| Auto.PartitionLength | rest_framework_json_schema/auto.py:53-58 | The two lists together are as long as the fields without the id field |
| Auto.FromSerializer | rest_framework_json_schema/auto.py:12-67 | Fails, with `ValueError`, exactly when the id field cannot be resolved. The class is named after the serializer and carries the `id` and `type` keywords or the resolved id and the type. Unless overridden, its attributes are exactly the non-related fields other than the resolved id. Keyword precedence is stated by `Auto.OverridesWin` |
| Auto.FromSerializerDefaults | rest_framework_json_schema/auto.py:12-67 | Without keywords, the class is named after the serializer, uses the resolved id and the type, transforms nothing, and splits the other fields into attributes and relationships |
| Auto.IdFieldDefaults | rest_framework_json_schema/auto.py:37-51 | A non-model serializer defaults to `id`. A model serializer uses one of its model's primary keys |
| Auto.MissingPrimaryKeyIgnoresOverrides | rest_framework_json_schema/auto.py:37-48 | A model without a primary key raises `ValueError` even when the keywords name an id |
| Auto.OverridesWin | rest_framework_json_schema/auto.py:60-67 | Keywords win over the generated attributes, and unnamed attributes keep the generated value. An `id` keyword does not change the partition, which used the resolved id |
| Auto.AutoSchemaOf | rest_framework_json_schema/auto.py:91-122 | `auto_schema` generates nothing until first access |
| Auto.Access | rest_framework_json_schema/auto.py:82-88 | A cached class is returned unchanged. Otherwise the class is generated from the accessing serializer and cached. A failed generation caches nothing |
| Auto.AccessCached | rest_framework_json_schema/auto.py:82-88 | Once generated, every later access returns the same class, whichever serializer accesses it |
| Auto.FirstAccess | rest_framework_json_schema/auto.py:82-88 | The first access succeeds exactly when generation from its serializer does, and returns that class |

## Left out

- Link objects. `LinkObject` and `UrlLink` (URL reversal, absolute URIs) are opaque `Value` tokens. A `LinkRenderer` function in the `Context` renders them; Django's `reverse` is not part of this model.
- JSON encoding. The renderer's output is the document as an ordered dictionary. The final `JSONRenderer.render` byte encoding is not modelled, and the empty byte string is `None`.
- Serializers and models. Django serializer and model introspection is reduced to data. A serializer is its class name, its fields with a related flag, and, for a model serializer, the model's fields with a primary-key flag.
- `get_schema`. The payload carries the schema its serializer declares as one optional value. The choice between `serializer.schema` and `serializer.child.schema` for `many` serializers collapses into it.
- `assert schema`. A serializer whose `schema` attribute is falsy is not modelled.
- The renderer context. It is assumed non-empty when present: an empty mapping, which Python treats as absent, is `None`. Only its request and response are modelled.
- Multi-valued query parameters. The query is the key/value sequence that `QueryDict.items()` yields, one pair per key holding the key's last value. `Renderers.QueryGet` takes the first pair for a key; that matches `QueryDict.get` when keys are distinct, as `items()` makes them. A query that repeats a key is accepted but not reduced.
- `isoformat()`. `DateTime.ApiFormat` takes the text that `isoformat()` produced; date-time values themselves are not modelled.
- Unicode in keys. `\w` in `filter[...]` and the letter classes are ASCII only; the case mapping of `str.upper`/`str.lower` is ASCII only.
- User-defined transformers. Only the three shipped transformer classes are modelled.
- Dynamic overrides. `render_meta` is the static `meta` attribute; a subclass overriding `render_meta`, `from_data` or `render_obj` is not modelled. `ResourceIdObject.get_schema`/`get_data` overrides are modelled as an optional target, a schema with data.
- The `context` argument to `parse`, which the source accepts but never reads.
- Modules outside the core: negotiation, parsers, pagination, helpers, relations and exceptions (exception classes are constructors of `Values.Error`).
- RoundTrip.ParseRender: covers only schemas without relationships, with distinct attribute names and wire names, no attribute named like the id field, and no sparse fieldset for the type. Relationship values do not survive the round trip verbatim; relationships are covered separately by `RoundTrip.RelationshipRoundTrip`. An attribute named like the id field would overwrite the parsed id string with the raw attribute value.
- Parsing.ParseObject: covers only payloads whose `attributes` and `relationships` members are objects or falsy; a truthy non-object member (a list or a string, where `in` and subscripting behave differently) is covered only by `Parsing.Parse`, `Parsing.ParseAttrs` and `Parsing.ParseRels`.
- Values.PyStr: writes `str()` of an identifier object as `<ResourceIdObject>`, not Python's default object representation with its memory address, which the model has no notion of.
- Values.Repr: always quotes strings with single quotes and does not escape them. Python switches to double quotes when the string holds a single quote, and escapes backslashes and control characters.
- Renderers.FieldsFrom: states only that every fieldset comes from a parameter; which value wins is stated by `Renderers.FieldsFromLastWins`.
- Renderers.GetFields: states only the no-request case; the request case is `Renderers.FieldsFrom`.
- Floating-point numbers. `Num` holds integers, so `str()` of a float is not modelled.

# AiiDA export and import, modelled in Dafny

This project models the export/import core of AiiDA, found in
`aiida/orm/importexport.py`:

- export writes a subset of the provenance database into an archive;
- import merges such an archive into another database.

The Django database is a value, `Store.Db`. It holds:

- rows per model class string, keyed by pk;
- the link table;
- group membership;
- node attributes;
- calculation states;
- the DbPath closure of parents.

The node file repository is a map from node UUID to folder contents. An
unpacked archive is `Archive.Package`, which holds `metadata.json`,
`data.json` and the node folders under `nodes/`.

The modules follow the source:

- `Digits`, `Values`, `Attributes`: the JSON-like value tree, and the
  fixed-width `'%Y-%m-%dT%H:%M:%S.%f'` datetime text. They also hold
  `serialize_field`, `serialize_dict` and `deserialize_attributes`, which
  write that tree out and read it back, with their round trip.
- `Fields`: `deserialize_field`, which turns an archive field into a column.
  It also remaps foreign keys: first from the archive pk to the unique
  identifier, then from the identifier to the receiving database's pk.
- `Members`: which members `extract_zip` and `extract_tar` unpack.
- `Checks`: the preliminary checks of `import_data`. These are the version
  gate, unknown nodes, known models, dependency order and the unique-id
  mappings.
- `Creation`, `Importer`: the two loops over `model_order`. The first splits
  the entries into new and existing ones. The second creates the new rows,
  copies node folders, sets calculation states and attributes, and extends
  the reverse mappings.
- `Linking`: the link phase of `import_data`.
- `Reimport`: what an import leaves behind. Every entry of the archive is
  then carried by a row, and importing the same archive again finds every
  entry and adds no row and no link.
- `Grouping`: the group phase, and the choice of the import group's name
  (`basename`, `basename_1`, …).
- `Schema`: `get_all_fields_info`, a worklist over Django field
  declarations.
- `Selection`: the selection and licence checks of `export_tree`.
- `Closure`: the `while entries_to_add` worklist of `export_tree`, with
  the filter the source evidently intends (see Findings). The corrected loop
  is proved to end, and its result is proved to be closed under foreign
  keys. The filter as written, and the endless loop it allows, are modelled
  beside it.
- `Exporter`: `export_tree`.
- `HtmlLinks`: `HTMLGetLinksParser`, a class whose `links` field
  `handle_starttag` appends to.

`import_data` is composed from the corrected resolution of link ends and
group members (see Findings). The resolutions as written are modelled
beside them, with the inputs on which the two differ.

The in-place dictionaries and loops of `import_data`, `export_tree` and
`get_all_fields_info` are methods with loops. Each method states its result
against a specification predicate or function. The recursive serialisers are
functions, with lemmas about them.

## Model

| member | source | states |
|---|---|---|
| `Digits.ParsePadded` | aiida/orm/importexport.py:800-801 | A number below 10^w, written zero-padded in w digits, reads back as itself. |
| `Digits.PaddedParse` | aiida/orm/importexport.py:33-34 | A run of digits, parsed and then re-padded to its width, gives back the same text. |
| `Digits.ParseDigitsBound` | aiida/orm/importexport.py:33-34 | A parsed field of w digits is below 10^w. |
| `Digits.ParseDecimal` | aiida/orm/importexport.py:1123 | `str(n)` of a pk reads back as n. |
| `Digits.DecimalInjective` | aiida/orm/importexport.py:1122-1126 | Different pks give different `str(v['id'])` keys of `export_data`. |
| `Attributes.ParseFormatFields` | aiida/orm/importexport.py:800-801 | Fields zero-padded to their widest width and joined by non-digit separators parse back to the same numbers, when each fits its width. |
| `Attributes.CanonicalFields` | aiida/orm/importexport.py:33-35 | A text the field parser accepts is the formatting of what it returns when it is as long as the widest fields and made of digits and the separators the layout allows. |
| `Attributes.ParseFormatDate` | aiida/orm/importexport.py:800-801 | `strptime` of the `strftime('%Y-%m-%dT%H:%M:%S.%f')` text of a UTC datetime gives back that datetime. |
| `Attributes.FormatParseDate` | aiida/orm/importexport.py:33-35 | A text `strptime` accepts is the `strftime` text of the datetime it returns exactly when it is 26 characters of digits and the separators `-T:.`. A shorter field, a space-padded day or a lower-case `t` is accepted but is not that text. |
| `Attributes.CanonicalDate` | aiida/orm/importexport.py:33-35 | A 26-character text of digits and the format's separators that `strptime` accepts is the `strftime` text of what it returns. |
| `Attributes.OneDigitFieldsDate` | aiida/orm/importexport.py:33-35 | `strptime` also takes one-digit month, day, hour, minute and second fields, a one-digit fraction scaled to microseconds and a lower-case `t`. So "2015-1-5t1:2:3.4" reads as 2015-01-05 01:02:03.400000. |
| `Attributes.LowerCaseT` | aiida/orm/importexport.py:33-35 | The separators of "--t::." equal the format's up to case, as `_strptime`'s IGNORECASE pattern compares them. |
| `Attributes.SerializeField` | aiida/orm/importexport.py:764-810 | `serialize_field(v, track_conversion=True)` succeeds exactly when every datetime in v has a year strftime accepts (Python 2: at least 1900). Any other input raises that error. |
| `Attributes.SerializeDict` | aiida/orm/importexport.py:813-857 | `serialize_dict` succeeds exactly when every kept top-level value is serialisable. |
| `Attributes.SerializeDictEntries` | aiida/orm/importexport.py:842-852 | The data and conversion dicts have the same keys. These are exactly `rename_fields.get(k, k)` for the top-level keys not removed. Each key holds the serialised value of its source key, data and conversion parts alike. Nested levels are neither removed nor renamed. |
| `Attributes.RoundTrip` | aiida/orm/importexport.py:16-40 | `deserialize_attributes(*serialize_field(v, True))` gives back v for every serialisable tree of dicts, lists, tuples, scalars and UTC datetimes. Tuples come back as lists. |
| `Attributes.ConversionTreeShape` | aiida/orm/importexport.py:774-805 | The conversion tree mirrors the data tree: same dict keys, same list lengths. It holds 'date' at exactly the datetimes of the input and None at every other scalar. |
| `Attributes.MarksDatesUnique` | aiida/orm/importexport.py:798-805 | The conversion part is the only tree that marks exactly v's datetimes. |
| `Attributes.DeserializedMarkersKnown` | aiida/orm/importexport.py:28-38 | When deserialisation succeeds, every marker it met at a scalar was None or 'date'. |
| `Attributes.UnknownMarkerRaises` | aiida/orm/importexport.py:36-38 | At a scalar, any marker other than None and 'date' raises ValueError naming it. |
| `Attributes.EmptyDictConversion` | aiida/orm/importexport.py:24-27 | A list read with an empty dict as its conversion comes back empty, since `zip` over the dict stops at once. |
| `Attributes.ZipPartner` | aiida/orm/importexport.py:24-27 | What `zip` pairs a list's items with, when the conversion is a dict: nothing for an empty dict, and its one key as a text for a one-key dict. A conversion that is not a list, tuple, text or dict gives nothing to pair with, since it is not iterable. |
| `Attributes.SingleKeyConversion` | aiida/orm/importexport.py:24-27 | A list read with a one-key dict as its conversion pairs its first item with the key and drops the rest. |
| `Attributes.DateKeyConversion` | aiida/orm/importexport.py:24-35 | With the one key 'date', a list whose first item is a `strftime` text comes back as the one datetime. |
| `Attributes.SerializeDictRoundTrip` | aiida/orm/importexport.py:813-857 | Deserialising what `serialize_dict(d, remove, rename, track_conversion=True)` returns gives back d. The kept top-level keys are renamed, the removed ones are gone, and tuples are read as lists. |
| `Fields.ForeignKeyColumn` | aiida/orm/importexport.py:72-75 | A foreign key's column is the field name followed by `_id`. |
| `Fields.DeserializeField` | aiida/orm/importexport.py:43-75 | An unknown field raises "Unknown field". `id` and `pk` raise "ID or PK explicitly passed". A successful result never names `id` or `pk`. A plain field keeps its name, and a foreign key becomes `k_id`. |
| `Fields.PlainFieldRoundTrip` | aiida/orm/importexport.py:56-60 | A plain field written by `serialize_field` and described by its conversion comes back as the value it was. |
| `Fields.DateFieldRoundTrip` | aiida/orm/importexport.py:59-60 | A datetime column with convert_type 'date' reads its strftime text back as the datetime. |
| `Fields.NullForeignKey` | aiida/orm/importexport.py:74-75 | A None foreign key becomes `k_id` = None, whatever the mappings hold. |
| `Fields.ForeignKeyKeepsIdentity` | aiida/orm/importexport.py:64-73 | A remapped foreign key can point at a receiving row. That row carries the same unique identifier as the archive entry the key named, provided the reverse mapping points each identifier at a row carrying it. |
| `Fields.UnresolvedForeignKeyRaises` | aiida/orm/importexport.py:65-73 | A foreign key that either mapping cannot resolve raises KeyError. |
| `Members.ExtractZip` | aiida/orm/importexport.py:94-113 | It raises KeyError on a missing metadata.json, and then on a missing data.json. Otherwise it extracts the two files and then the kept members in archive order. |
| `Members.ExtractTar` | aiida/orm/importexport.py:135-165 | It raises KeyError naming metadata.json when no member has that name, and then naming data.json. When both are present it succeeds. The kept members follow the two JSON members in archive order. |
| `Members.GetMember` | aiida/orm/importexport.py:139-141 | `tar.getmember(name)` finds a member exactly when one has the name, and returns the last such member. |
| `Members.KeptNamesSpec` | aiida/orm/importexport.py:105-113 | The zip loop extracts exactly the names that start with `nodes/`. |
| `Members.KeptMembersSpec` | aiida/orm/importexport.py:146-165 | The tar loop extracts exactly the members under `nodes/` that are neither devices nor links. |
| `Members.KeptNamesIdempotent` | aiida/orm/importexport.py:110-111 | Filtering the extracted names again keeps them all. |
| `Members.ParentSegmentPasses` | aiida/orm/importexport.py:108-111 | The filter checks only the prefix, so `nodes/../escape` is extracted. The source's TODO admits this. |
| `Checks.CheckVersion` | aiida/orm/importexport.py:328-331 | Import passes the gate exactly when export_version is '0.1', and otherwise fails naming the version found. |
| `Checks.ArchiveNodes` | aiida/orm/importexport.py:349-351 | The archive's node UUIDs are exactly the 'uuid' of its DbNode entries. Without DbNode entries, or with an entry lacking 'uuid', this raises KeyError. |
| `Checks.UnknownNodesAre` | aiida/orm/importexport.py:336-354 | A UUID is unknown exactly when three things hold: a link or a group names it, the archive does not hold it, and it is not a link end the database holds. Group members are never looked up in the database. |
| `Checks.CheckUnknownNodes` | aiida/orm/importexport.py:353-362 | The check fails exactly when the unknown set is non-empty and unknown nodes are not ignored. The error carries the unknown set. |
| `Checks.CheckKnownModels` | aiida/orm/importexport.py:386-390 | It passes exactly when every model of all_fields_info is in model_order or model_manual. Otherwise it raises NotImplementedError for a model outside both. |
| `Checks.CheckModelDependencies` | aiida/orm/importexport.py:393-404 | One model passes exactly when every `requires` of its fields is strictly earlier in the order. A failure names a target that is not earlier. |
| `Checks.CheckDependencyOrder` | aiida/orm/importexport.py:392-404 | It passes exactly when every model of the order is described and loads after its dependencies. A failure is a KeyError or ValueError at the first model that fails. |
| `Checks.SelfReferenceRefused` | aiida/orm/importexport.py:400-404 | A model that requires itself is never accepted. |
| `Checks.StandardDependenciesOrdered` | aiida/orm/importexport.py:369-375 | With AiiDA's own foreign keys the check passes. Those keys are nodes and groups on users, nodes on computers, groups on nodes. |
| `Checks.UniqueIdMappings` | aiida/orm/importexport.py:409-415 | There is one mapping per exported model that unique_identifiers names. It maps every archive pk to that entry's identifier. A None identifier only works with no entries. A missing field raises KeyError. |
| `Store.LookupByIdentifier` | aiida/orm/importexport.py:445-451 | It finds exactly those of the given identifiers that some row carries, each mapped to a row that carries it. |
| `Store.FreshPk` | aiida/orm/importexport.py:524 | `bulk_create` gives a row a positive pk that is not in use. |
| `Creation.Partition` | aiida/orm/importexport.py:441-458 | The reverse mapping holds exactly the entries' identifiers that rows carry, each pointing at such a row. Existing and new entries are disjoint and cover all entries. An existing entry's identifier is in the mapping, and no row carries a new entry's identifier. |
| `Creation.DeserializedHasNoId` | aiida/orm/importexport.py:53-54 | A deserialised object never sets `id` or `pk` itself. |
| `Creation.DeserializeRecord` | aiida/orm/importexport.py:491-495 | An entry becomes an object whose every field is `deserialize_field` of an entry field. Otherwise it raises what one of its fields raises. |
| `Creation.DeserializeNew` | aiida/orm/importexport.py:489-497 | There is one object per new entry, each a deserialisation of its entry. Otherwise it raises what some new entry raises. |
| `Creation.IndexNew` | aiida/orm/importexport.py:498 | `import_entry_ids` maps the identifier of every new entry to a new entry carrying it. |
| `Creation.IndexedIdentifiers` | aiida/orm/importexport.py:498 | The keys of `import_entry_ids` are exactly the new entries' identifiers. |
| `Creation.CopyNodeFolders` | aiida/orm/importexport.py:502-521 | It passes exactly when every new node's UUID has a folder in the archive, and otherwise names a node without one. Each new node's repository folder becomes the archive's folder, and no other folder changes. Folders copied before a failure stay copied. |
| `Creation.StoreRows` | aiida/orm/importexport.py:524 | Each object becomes a new row at its own fresh pk. Every old row is kept, and no other row appears. |
| `Creation.RecordSaved` | aiida/orm/importexport.py:531-551 | The reverse mapping gains the saved identifiers. The report lists (archive pk, new pk) for each. For nodes, each saved pk gets the IMPORTED state. |
| `Creation.LookupInjective` | aiida/orm/importexport.py:527-529 | Different saved identifiers are different rows. |
| `Creation.StoreAttributes` | aiida/orm/importexport.py:558-582 | When it succeeds, each saved node holds the deserialised attributes of its archive entry, and other nodes keep theirs. It fails exactly when some saved node has no readable attributes. A missing entry raises "Unable to find attribute info"; a bad one raises what deserialize_attributes raises. |
| `Creation.StoreNew` | aiida/orm/importexport.py:524-529 | The new rows are exactly one per new entry, each a deserialisation of it. Old rows are kept. |
| `Creation.CreateRows` | aiida/orm/importexport.py:486-529 | The new entries become rows, and for nodes their folders are copied first. The repository only takes archive folders. Errors come from deserialisation or from a missing node folder. |
| `Creation.SaveRecords` | aiida/orm/importexport.py:526-582 | Only the model's table changes. The reverse mapping keeps the existing identifiers and maps each saved new identifier to its row. The report pairs each new entry with the row carrying its identifier. New nodes get their state and attributes. |
| `Creation.ImportModel` | aiida/orm/importexport.py:463-582 | One model of the second loop. Without a unique identifier it fails. Otherwise only its table changes and old rows are kept. New entries become new rows, and existing ones are reported with their rows. The reverse mapping and report are extended, and nodes get state, attributes and folders. |
| `Importer.ModelOrderDistinct` | aiida/orm/importexport.py:369-375 | The four models of the import order are distinct. |
| `Importer.PartitionModel` | aiida/orm/importexport.py:427-460 | Each model's entries are split by its reverse mapping. A model without an identifier puts all its entries in new. |
| `Importer.PartitionModels` | aiida/orm/importexport.py:427-460 | After the first loop every model of the order is split. |
| `Importer.ImportOne` | aiida/orm/importexport.py:463-582 | One model of the second loop changes only its own table and keeps its old rows. Each new entry gets a new row deserialised from it. Existing entries are reported with their rows, new ones with their new rows. The reverse mapping is extended with the saved rows. New nodes get the IMPORTED state and their folders, and only archive folders are copied. |
| `Importer.CreateModels` | aiida/orm/importexport.py:463-582 | After the second loop every model of the order has a unique identifier and was created as ImportOne states, against the reverse mappings of its turn. Tables of other models are untouched. New nodes have their state and folders, and exactly the models with entries are reported. |
| `Importer.ImportedNodePks` | aiida/orm/importexport.py:662-672 | `existing_pk + new_pk` is exactly the mapped pks of the node entries. A KeyError is raised when an entry's UUID is not mapped. |
| `Importer.Preliminary` | aiida/orm/importexport.py:328-415 | The checks run in the source's order, and the first to fail decides the error. After them the version is right, no node is unknown (or unknown nodes are ignored), the models are known and ordered, and the entries carry their identifiers. |
| `Importer.LinkPhase` | aiida/orm/importexport.py:588-644 | The stored links are indexed and the archive's links classified. Only the link table changes: it gains exactly the queued links, reported as (in, out). |
| `Importer.GroupPhase` | aiida/orm/importexport.py:651-703 | On success every node entry's UUID is mapped. Every listed group was found once and gained exactly its resolved members, and no other group gained any. The import group holds exactly the imported node pks, and only the group table and memberships change. |
| `Importer.ImportGroupKeepsRows` | aiida/orm/importexport.py:688-689 | Storing the import group under a fresh pk keeps every stored row of every model. |
| `Importer.ImportData` | aiida/orm/importexport.py:257-710 | On error the transaction leaves the database as it was. A wrong version or an unknown node fails with that error. On success every check passed, and the import went step by step through the phases above: the first loop split the entries, the second created every model of the order, the link table gained exactly the queued links, the groups gained exactly their resolved members and the import group holds the imported nodes. The database only grew, and only the import order's models are reported. |
| `Importer.LinkAndGroup` | aiida/orm/importexport.py:588-703 | The link phase, then the group phase, from the database the second loop left. Link ends resolve through the archive's nodes and the linked nodes the database holds. The database only grows. |
| `Reimport.ImportKept` | aiida/orm/importexport.py:584-703 | After the second loop an import keeps every row, changes no table but the group table, and adds links only in the link phase. |
| `Reimport.EntriesStored` | aiida/orm/importexport.py:441-582 | After an import every entry of every model of the order is carried by some row: an existing entry by the row it matched, a new one by the row created from it. |
| `Reimport.ReimportFindsEntries` | aiida/orm/importexport.py:441-458 | Importing the same archive again, the first loop finds every entry existing and none new. |
| `Reimport.ReimportQueuesNothing` | aiida/orm/importexport.py:592-637 | Against the links the first import left, the second import's link phase queues no link and raises nothing. |
| `Reimport.ReimportAddsNothing` | aiida/orm/importexport.py:257-710 | A second import of the same archive adds no row and no link: every table but the group table is unchanged, no model reports a new pair, and no new link is reported. Only a new import group may appear. |
| `Linking.IndexLinks` | aiida/orm/importexport.py:592-595 | `existing_links_labels` and `existing_input_links` index the stored links by (in, out) and by (out, label). |
| `Linking.RefusalPersists` | aiida/orm/importexport.py:599-637 | Once a link is refused, the whole link loop fails with that error. |
| `Linking.LinkPairs` | aiida/orm/importexport.py:635-637 | The report lists (in, out) for each queued link, in order. |
| `Linking.StoreLinks` | aiida/orm/importexport.py:599-644 | It succeeds exactly when no link is refused, and otherwise fails with the refusal. The link table gains exactly the queued links. |
| `Linking.QueuedLinksAreNew` | aiida/orm/importexport.py:613-634 | A queued link has resolved ends. No stored link joins the same two nodes, and no stored link gives its output the same label. |
| `Linking.StoredLinksQueueNothing` | aiida/orm/importexport.py:613-621 | Links that are all stored already queue nothing and raise nothing. A second import's link phase is a no-op. |
| `Linking.RequeueNothing` | aiida/orm/importexport.py:592-637 | Importing the same links again, against the links the first import stored and with a resolution that agrees on every link end, queues nothing and raises nothing. |
| `Linking.RelabelNamesStoredLink` | aiida/orm/importexport.py:603-630 | Each refusal names its cause. A relabelling names the stored link with the old label. A taken label names the other input's link. An unknown end only happens when unknown nodes are not ignored. |
| `Linking.LinkEnds` | aiida/orm/importexport.py:597-602 | The corrected resolution of Findings row 1: link ends resolve through the archive's nodes and the linked nodes the database holds, which lines 340-348 load into a reverse table. Archive nodes keep their new pks. |
| `Linking.AcceptedLinksResolve` | aiida/orm/importexport.py:353-362 | With the corrected resolution, both ends of every link resolve once the unknown-node check has accepted the archive. |
| `Linking.StoredLinkEndRefused` | aiida/orm/importexport.py:597-611 | A link from a node stored only in the receiving database passes the unknown-node check. As written it is then refused as a link with an unknown end. |
| `Linking.StoredLinkEndQueued` | aiida/orm/importexport.py:1189-1191 | With the corrected resolution that link is queued between rows 1 and 2. |
| `Grouping.FindGroup` | aiida/orm/importexport.py:654 | `DbGroup.objects.get(uuid=g)` succeeds exactly when one group carries g, and returns it. Otherwise it raises. |
| `Grouping.ResolveMembersSpec` | aiida/orm/importexport.py:655-656 | Resolving a group's members succeeds unless a member is unknown and unknown nodes are not ignored. It gives exactly the pks of the resolved members, and an error names an unknown member. |
| `Grouping.ResolveMembersAsWrittenWithoutIgnore` | aiida/orm/importexport.py:655-656 | Without ignoring unknown nodes, the corrected resolution is the one written. |
| `Grouping.IgnoredMemberRaises` | aiida/orm/importexport.py:338-356 | With ignore_unknown_nodes, an unknown group member passes the check. As written it then raises KeyError, where the corrected resolution skips it. |
| `Importer.StoredMemberRaises` | aiida/orm/importexport.py:651-656 | A group member that is a link end the database holds passes the unknown-node check. With ignore_unknown_nodes the link from it is skipped, and as written line 655 raises KeyError for it. |
| `Importer.StoredMemberResolves` | aiida/orm/importexport.py:651-656 | With the corrected resolutions the same link is queued between rows 1 and 2, and the group gets row 1. |
| `Grouping.AddGroupMembers` | aiida/orm/importexport.py:651-658 | Only group membership changes. Every listed group exists once and gains exactly its resolved members, and no other group gains any. An error names a group that is not unique, or a member that does not resolve. |
| `Grouping.NodePks` | aiida/orm/importexport.py:663-670 | The mapped pks of the node entries. It raises for an entry without 'uuid' or one that is not mapped. |
| `Grouping.StampReadsBack` | aiida/orm/importexport.py:678-679 | `strftime("%Y%m%d-%H%M%S")` is fifteen characters, and each field reads back as the clock's component. |
| `Grouping.ImportGroupNamesDistinct` | aiida/orm/importexport.py:683-686 | `basename`, `basename_1`, `basename_2`, … are all different. |
| `Grouping.ChooseImportGroupName` | aiida/orm/importexport.py:680-692 | The `while not created` loop returns the first name in that sequence that no import group has. Every earlier name is taken. |
| `Grouping.CreateImportGroup` | aiida/orm/importexport.py:675-703 | With no node pks nothing changes. Otherwise there is one new group at a fresh pk, of type aiida.import, named by the stamp and a counter with a name not yet taken. It holds exactly the pks that are nodes, and nothing else changes. |
| `Grouping.ImportGroupNameIsNew` | aiida/orm/importexport.py:687-692 | No stored import group has the new group's name. The taken names grow by exactly that name. |
| `Schema.Describe` | aiida/orm/importexport.py:901-933 | A model is described exactly when none of its kept fields is of an unsupported class. Otherwise it fails naming such a field. Line 931 means NotImplementedError there; as written, formatting its message raises IndexError (see Findings). |
| `Schema.UnsupportedMessageRaises` | aiida/orm/importexport.py:930-932 | As written, the message has two `{}` fields and one argument, so `format` raises IndexError. |
| `Schema.UnsupportedMessageNamesClass` | aiida/orm/importexport.py:930-932 | With one `{}` field, the message names the field's class. |
| `Schema.DescribeEntries` | aiida/orm/importexport.py:903-928 | `thisinfo` has one entry per kept, supported field name. The entry comes from the last field of that name. |
| `Schema.Targets` | aiida/orm/importexport.py:919-928 | The models added to export_models are exactly the targets of the kept foreign keys. |
| `Schema.DescribeRound` | aiida/orm/importexport.py:898-933 | One pass over missing_models describes each missing model and keeps the walk's invariant. An error names a model the least closure needs. |
| `Schema.RoundShrinks` | aiida/orm/importexport.py:893-896 | Each pass of `while True` leaves fewer models undescribed, so the loop ends. |
| `Schema.CollectFieldsInfo` | aiida/orm/importexport.py:888-933 | all_fields_info describes the least set of models that holds the four seed models and is closed under foreign keys. Each model holds its own description. |
| `Schema.UniqueIdentifiers` | aiida/orm/importexport.py:935-954 | Every described model gets its identifier: email for users, None for attributes, links and extras, otherwise 'uuid'. A model without one raises ValueError. |
| `Schema.GetAllFieldsInfo` | aiida/orm/importexport.py:860-956 | It returns both dictionaries. all_fields_info is the least foreign-key-closed set over the seeds, and unique_identifiers has the same keys. |
| `Schema.DateTimeColumnsCarryMarker` | aiida/orm/importexport.py:914-916 | A datetime column is described with convert_type 'date', which is what deserialize_field needs to read it back. |
| `Selection.StartIds` | aiida/orm/importexport.py:1010-1012 | entries_ids_to_add holds exactly the models of `what`, each with exactly its pks. |
| `Selection.StartGroups` | aiida/orm/importexport.py:1013-1014 | groups_entries holds exactly the groups of `what`. |
| `Selection.SelectEntries` | aiida/orm/importexport.py:1010-1014 | The loop over `what` builds both. |
| `Selection.SameSelection` | aiida/orm/importexport.py:1006-1012 | A selection is determined by its models and their pks. |
| `Selection.ExpandNodesSpec` | aiida/orm/importexport.py:1016-1039 | Only DbNode grows. It gains every parent of a selected node and then every output of a calculation that is selected or such a parent, and nothing else. Reading the node list adds the DbNode key. |
| `Selection.NodeLicenses` | aiida/orm/importexport.py:1049-1051 | The selected nodes that carry 'source.license', with it. |
| `Selection.CheckLicenses` | aiida/orm/importexport.py:1052-1086 | It passes exactly when every licence passes both given rules. A failure names a node, with the allow check before the deny check. |
| `Selection.LicenseGate` | aiida/orm/importexport.py:1046-1086 | With no rules it passes. With a rule and no DbNode selection it raises KeyError. Otherwise it passes exactly when every licensed selected node is permitted, and a failure names a node whose licence is refused. |
| `Selection.Allows` | aiida/orm/importexport.py:1055-1063 | The allow check passes for a list exactly at its members. A function that raises allows nothing. |
| `Selection.Forbids` | aiida/orm/importexport.py:1069-1077 | The deny check fails for a list exactly at its members. A function that raises forbids the licence. A rule used both ways forbids every licence it allows. |
| `Closure.SerializeEntries` | aiida/orm/importexport.py:1116-1131 | `serialized` is every given row, serialised. It fails exactly when one row fails. |
| `Closure.ForeignQueries` | aiida/orm/importexport.py:1138-1149 | There is exactly one query per target model, with one `related_name__in` per foreign key to it. |
| `Closure.Unexported` | aiida/orm/importexport.py:1120-1126 | As intended, exactly the matched rows not yet exported. |
| `Closure.AsWrittenFilterKeepsAll` | aiida/orm/importexport.py:1121-1126 | As written, the filter asks whether an integer is among text keys and keeps every row. |
| `Closure.StepModel` | aiida/orm/importexport.py:1096-1149 | One model of a round succeeds exactly when its rows serialise. |
| `Closure.RoundModel` | aiida/orm/importexport.py:1099-1149 | With the intended filter, one model of a round exports every matched row as its serialisation and keeps every earlier entry. Every row it adds was matched, and its queries ask for what its new rows point to. |
| `Closure.ExportRound` | aiida/orm/importexport.py:1094-1151 | With the intended filter, one round covers every pending query and keeps every entry. Every entry it adds was matched by a pending query, and it queues a query only after exporting something new. |
| `Closure.NotExportedShrinks` | aiida/orm/importexport.py:1120-1151 | With the intended filter, the rows not yet exported shrink strictly each round that queues more, so the corrected `while entries_to_add` ends. |
| `Closure.CollectEntries` | aiida/orm/importexport.py:1093-1151 | With the intended filter the loop ends. Then every row the start selects is exported, and every entry is its row serialised. The export is closed under foreign keys. Every entry was selected or is pointed to by one, and nothing is exported exactly when the start selects nothing. |
| `Closure.CollectDone` | aiida/orm/importexport.py:1094 | When nothing is pending, the export is closed, covered and justified. |
| `Closure.JustifiedAfterRound` | aiida/orm/importexport.py:1139-1151 | After a round every entry still was selected at the start or is pointed to by an exported entry. |
| `Closure.SelfReferenceRepeatsAsWritten` | aiida/orm/importexport.py:1121-1149 | Take a model whose rows queue a query for themselves. Once they are exported, a round as written gives back the same export and the same queue, so the loop never ends. |
| `Closure.SelfReferenceEndsIntended` | aiida/orm/importexport.py:1120 | With the intended filter, the same round serialises nothing and queues nothing. |
| `Closure.CycleIsSelfReference` | aiida/orm/importexport.py:1139-1149 | Node 1, whose parent is itself, meets both lemmas above. |
| `Closure.CycleFirstRound` | aiida/orm/importexport.py:1128-1149 | The first round of exporting node 1 stores it and queues the query for its parent. |
| `Closure.FirstRound` | aiida/orm/importexport.py:1127-1136 | A first round stores exactly the rows its query selects. |
| `Exporter.StartQueries` | aiida/orm/importexport.py:1042-1043 | There is one `Q(id__in=...)` per selected model. |
| `Exporter.SerializableAttributes` | aiida/orm/importexport.py:1175-1177 | `serialize_dict(n.attributes)` succeeds exactly when every attribute has strftime-formattable datetimes. |
| `Exporter.SerializeAttributes` | aiida/orm/importexport.py:1172-1177 | node_attributes and their conversion have one entry per exported node. Each entry deserialises back to the node's attributes. An error names a node that is not serialisable. |
| `Exporter.GroupsUuid` | aiida/orm/importexport.py:1204-1205 | groups_uuid maps each selected group's UUID to the UUIDs of its nodes. |
| `Exporter.ExportFolders` | aiida/orm/importexport.py:1241-1255 | Every exported node's repository folder is copied. A missing folder fails, naming its UUID. |
| `Exporter.ExportTree` | aiida/orm/importexport.py:959-1255 | With `what` empty the export returns without writing. Otherwise the archive is a closure of the selection: attributes deserialise back, links into exported nodes are listed, the selected groups and the folders are included, and the metadata describes each model by its fields. Licences are permitted. A failure has its cause: the schema walk raises, a licence rule comes without a DbNode selection, a selected node's licence is refused, a node's attributes do not serialise, or its folder is missing. |
| `Exporter.WritePackage` | aiida/orm/importexport.py:1157-1255 | The archive is written from the collected export_data with the metadata given. A failure names an unserialisable attribute set or a missing folder. |
| `Exporter.SelectionIdle` | aiida/orm/importexport.py:1156-1161 | The export of stored entries is empty exactly when `what` is empty. |
| `HtmlLinks.LinkParser.constructor` | aiida/orm/importexport.py:717-724 | A new parser holds the filter extension and no links. |
| `HtmlLinks.LinkParser.HandleStartTag` | aiida/orm/importexport.py:726-735 | Other tags change nothing. An `a` tag appends its accepted hrefs in order, until a valueless href raises under a filter. |
| `HtmlLinks.LinkParser.Feed` | aiida/orm/importexport.py:753-754 | Feeding start tags appends each one's links in document order, and an exception ends the parse. |
| `HtmlLinks.LinkParser.GetLinks` | aiida/orm/importexport.py:737-741 | Returns the links found. |
| `HtmlLinks.LinkParser.ScanFindsHrefs` | aiida/orm/importexport.py:731-735 | Every collected link is an href value that passes the filter. |
| `HtmlLinks.LinkParser.ScanFindsAll` | aiida/orm/importexport.py:731-735 | Unless a valueless href raised, every href that passes the filter is collected. |
| `HtmlLinks.LinkParser.ScanRaises` | aiida/orm/importexport.py:733-734 | It raises exactly when a filter is set and some href has no value. |
| `HtmlLinks.LinkParser.UnfilteredKeepsEveryHref` | aiida/orm/importexport.py:733 | Without a filter, every href value is collected in order and nothing raises. |
| `HtmlLinks.LinkParser.FedLinksHaveExtension` | aiida/orm/importexport.py:753 | With a filter, every link collected is a text ending with '.' + extension. |

## Left out

- I/O: the unpacking and writing of archives (zipfile, tarfile, `extract_tree`, `extract_cif`, `MyWritingZipFile`, `ZipFolder`, `export_zip`, `export`), `json.load`/`json.dump`, and the sandbox folder. The library and file system do this work. `Members` models only which members are extracted, and an archive is given as its unpacked content.
- `get_valid_import_links`: it fetches a URL and joins the links with it. That is network I/O; only the parser it uses is modelled.
- The HTML tokenizer of HTMLParser: the start tags are given, in document order.
- `print` output and the `silent` flag, because output does not affect the results.
- The Django store: queries, `bulk_create`, `transaction.commit_on_success` and `RepositoryFolder`. They are replaced by maps. A rolled-back transaction is modelled as returning the old database. A pk chosen by the database is any unused natural number.
- `timezone.now()` is a parameter, already in local time, because the clock is outside the model. Datetimes are UTC components. Time zones and `astimezone` are not modelled.
- Float attribute values: scalars are opaque, and floats are not modelled.
- `Calculation._query_type_string` is a parameter (`calcPrefix`), because the class hierarchy is not part of this model.
- Dict iteration order: Python picks "the first" failing key of a dict by hash order. Methods choose any failing key.
- Attributes.DeserializeAttributes: for a failing dict entry it reports `DictEntryFailed` rather than the entry's own exception. Which exception Python raises depends on its iteration order. Lists report the exact first error.
- Attributes.SerializeDict: requires that no two kept keys are renamed to the same key. Python would let the later one overwrite the earlier, in dict order. The export only renames `input__uuid` and `output__uuid`, which never collide.
- `aiida_version` of metadata.json is not modelled, because it comes from the installed package.
- `export_shard_uuid` and `grouper` come from `aiida.common.utils`, which is not part of this model. Node folders are keyed by UUID, and the 999-item query batches are one query.
- The path separator `os.sep` is `/`.
- The licence of a node is its `source.license` attribute when that is a text, and '' otherwise, as the `tval` column holds.
- Archive pks are natural numbers: the `str` keys of JSON and `int(k)` are not modelled.
- Group names: `UniquenessError` is modelled as a name already used by a stored import group.
- `calc_states`: IMPORTED is one constant state.
- Creation.DeserializeNew and Creation.IndexNew: the source's single loop over new entries is modelled as these two loops. Neither depends on the other.
- Exporter.ExportTree: requires that the entries of `what` are rows of the database, as the Django objects passed in are.
- Linking.QueueLinks: archive links are checked against the links stored before the link phase only, as the source's indexes are built once. Two archive links that clash with each other are both queued.
- aiida/orm/nodes/data/msonable.py and the repository migration are not part of this model.
- Attributes.DeserializeSequence: with a conversion dict of two or more keys, Python's `zip` pairs the list's items with the keys in dict order. That order is not modelled, so the model fails with `ConversionMismatch`. Dicts of no key or one key are modelled as the source reads them.
- Attributes.ParseDate: models `strptime` for this one format only, with its field widths, the space-padded `%d` and the case-insensitive separators. Locale, other directives and the regex cache are left out.
- Schema.Describe: its error names the unsupported field, as line 931 means to. As written that line raises IndexError while formatting its message (see Findings).
- Exporter.ExportTree: an error from collecting or serialising an entry (`UnknownExportModel`, `Unserializable`) is not tied to its cause in the contract. The other failures are.
- Closure.RoundModel: uses the intended filter of Findings row 3. On a schema without a foreign-key cycle, such as AiiDA's own, both filters export the same rows.
- Closure.ExportRound: uses the intended filter of Findings row 3.
- Closure.NotExportedShrinks: holds for the intended filter only. As written the loop does not end on a self-referencing foreign key.
- Closure.CollectEntries: the loop it proves to end is the corrected one of Findings row 3.
- Importer.ImportData: composes the corrected resolutions of Findings rows 1, 2 and 4. On the inputs of those rows the source raises where ImportData succeeds.
- Importer.LinkAndGroup: resolves link ends and group members through `Linking.LinkEnds`, the corrected resolution of Findings rows 1 and 4.
- Importer.GroupPhase: resolves members with `Grouping.ResolveMembers` over `Linking.LinkEnds`, the corrected resolutions of Findings rows 2 and 4.
- Grouping.AddGroupMembers: uses `Grouping.ResolveMembers`, which skips an unknown member when unknown nodes are ignored (Findings row 2).
- Reimport.ReimportAddsNothing: needs three premises. No two node rows carry the same UUID. No two stored links join the same two nodes, as the `existing_links_labels` dict assumes. Every identifier is a plain text column, as `uuid` and `email` are. The import group that a second import creates is not excluded.
- Reimport.EntriesStored and Reimport.ReimportFindsEntries: need the plain-identifier premise above.

## Findings

| source | as written | input that shows it | evidently intended | confidence | as-written member | corrected member |
|---|---|---|---|---|---|---|
| aiida/orm/importexport.py:597-611 | Link ends resolve only through `foreign_ids_reverse_mappings[DbNode]`, which holds the archive's nodes. The unknown-node check accepts a link end the receiving database has (348, 353), but the link loop then raises "unknown nodes". | The database has node 1 with UUID a. The archive has node b and the link a→b labelled x. | A link end the database holds resolves to its row. The lines 340-341 preload those nodes "in a reverse table", and export lists parent links for that case at 1189-1191. | not executed | `Linking.StoredLinkEndRefused` | `Linking.StoredLinkEndQueued` |
| aiida/orm/importexport.py:655-656 | With `ignore_unknown_nodes=True`, an unknown group member passes the check at 356. `dbnode_reverse_mappings[node_uuid]` then raises KeyError. | A group lists members b and z. b is imported, z is unknown, and ignore_unknown_nodes is set. | Unknown members are skipped, as unknown link ends are at 604-605. | not executed | `Grouping.IgnoredMemberRaises` | `Grouping.ResolveMembersSpec` |
| aiida/orm/importexport.py:1121-1126 | `v['id'] not in export_data[model_name]` tests an integer against the `str(v['id'])` keys, so it never drops a row. A foreign key from a row back to itself queues the same query every round, and `while entries_to_add` does not end. | Node 1 has a foreign key to node 1, and node 1 is exported. | Only rows not yet exported are serialised ("also to avoid infinite loops", 1120). | not executed | `Closure.SelfReferenceRepeatsAsWritten` | `Closure.SelfReferenceEndsIntended` |
| aiida/orm/importexport.py:651-656 | A group member that the database holds as a link end passes the unknown-node check (348-353), but `dbnode_reverse_mappings` holds only the archive's nodes, so line 655 raises KeyError. | The database has node 1 with UUID a. The archive has node b, the link a→b, and a group listing a. ignore_unknown_nodes is set, so the link is skipped. | Such a member resolves to its row, as the stored nodes loaded "in a reverse table" at 340-346 suggest. | not executed | `Importer.StoredMemberRaises` | `Importer.StoredMemberResolves` |
| aiida/orm/importexport.py:930-932 | `"Export not implemented for field of type {}.{}".format(get_class_string(field))` has two fields and one argument, so it raises IndexError instead of the NotImplementedError it builds. | A model with a field of a class the chain at 906-928 does not handle. | A NotImplementedError naming the field's class. | not executed | `Schema.UnsupportedMessageRaises` | `Schema.UnsupportedMessageNamesClass` |

/**
 * The content of an export archive (metadata.json, data.json and the node
 * folders under nodes/), the model names that the export version 0.1 fixes,
 * and the exceptions import_data can raise.
 */
module Archive {
  import opened Wrappers
  import opened Values
  import opened Attributes

  /** The only export version import_data accepts, and the one export_tree writes. */
  const EXPORT_VERSION: string := "0.1"

  const USER_MODEL: string := "aiida.backends.djsite.db.models.DbUser"
  const COMPUTER_MODEL: string := "aiida.backends.djsite.db.models.DbComputer"
  const NODE_MODEL: string := "aiida.backends.djsite.db.models.DbNode"
  const GROUP_MODEL: string := "aiida.backends.djsite.db.models.DbGroup"
  const LINK_MODEL: string := "aiida.backends.djsite.db.models.DbLink"
  const ATTRIBUTE_MODEL: string := "aiida.backends.djsite.db.models.DbAttribute"
  const EXTRA_MODEL: string := "aiida.backends.djsite.db.models.DbExtra"

  /** The models import_data creates, in the order it creates them. */
  const MODEL_ORDER: seq<string> := [USER_MODEL, COMPUTER_MODEL, NODE_MODEL, GROUP_MODEL]

  /** Models the archive may describe but whose import is done by hand. */
  const MODEL_MANUAL: seq<string> := [LINK_MODEL, ATTRIBUTE_MODEL]

  /** The group type of the bookkeeping group an import creates. */
  const IMPORTGROUP_TYPE: string := "aiida.import"

  /** One serialised database row (its fields, without 'id'). */
  type Record = map<string, Value>

  /** The entry of all_fields_info for one field: 'requires', 'convert_type', 'related_name'. */
  datatype FieldInfo = FieldInfo(target: Option<string>, convertType: Value, relatedName: Option<string>)

  datatype Metadata = Metadata(
    exportVersion: string,
    allFieldsInfo: map<string, map<string, FieldInfo>>,
    uniqueIdentifiers: map<string, Option<string>>)

  /** An entry of links_uuid: the UUIDs of both ends and the label. */
  datatype LinkRef = LinkRef(input: Value, output: Value, linkLabel: string)

  /** A node's repository folder, as its files and their contents. */
  datatype Folder = Folder(files: map<string, string>)

  /** data.json: records per model keyed by their pk in the exporting database. */
  datatype Data = Data(
    exportData: map<string, map<nat, Record>>,
    linksUuid: seq<LinkRef>,
    groupsUuid: map<Value, seq<Value>>,
    nodeAttributes: map<nat, Value>,
    nodeAttributesConversion: map<nat, Value>)

  /** An unpacked archive: the two JSON files and the node folders under nodes/, by node UUID. */
  datatype Package = Package(metadata: Metadata, data: Data, folders: map<Value, Folder>)

  datatype ImportError =
    /** ValueError: the archive's export version is not 0.1. */
    | VersionMismatch(found: string)
    /** KeyError: data.json has no DbNode entries. */
    | NoNodeEntries
    /** KeyError: a record lacks the named field. */
    | MissingField(model: string, field: string)
    /** ValueError: links or groups name nodes neither in the archive nor in the database. */
    | UnknownNodes(uuids: set<Value>)
    /** NotImplementedError: all_fields_info describes a model outside the known lists. */
    | UnknownModel(model: string)
    /** KeyError: all_fields_info does not describe a model of the import order. */
    | MissingFieldsInfo(model: string)
    /** ValueError: a model requires a model that is not loaded before it. */
    | LoadedTooEarly(model: string, dependency: string)
    /** ValueError: a record has a field its model does not describe. */
    | UnknownField(field: string)
    /** ValueError: a record carries 'id' or 'pk'. */
    | ExplicitId
    /** deserialize_attributes raised. */
    | BadAttributes(cause: AttrError)
    /** KeyError: a foreign key names an entry no mapping resolves. */
    | UnresolvedForeignKey(field: string)
    /** KeyError: the model to create has no unique identifier. */
    | NoUniqueIdentifier(model: string)
    /** ValueError: the archive has no repository folder for a new node. */
    | MissingNodeFolder(uuid: Value)
    /** ValueError: the archive has no attributes for a new node. */
    | MissingAttributes(uuid: Value)
    /** ValueError: a link end is not among the imported nodes. */
    | UnknownLinkEnd(link: LinkRef)
    /** ValueError: the link exists with another label. */
    | RelabelledLink(input: nat, output: nat, oldLabel: string, newLabel: string)
    /** ValueError: the output already has an input link with this label, from another node. */
    | TakenInputLabel(output: nat, linkLabel: string, input: nat)
    /** DoesNotExist or MultipleObjectsReturned: no single group has this UUID. */
    | NoSuchGroup(uuid: Value)
    /** KeyError: a group member is not among the imported nodes. */
    | UnknownGroupMember(uuid: Value)
    /** KeyError: the UUID of a node entry did not come back from the store. */
    | UnsavedNode(uuid: Value)
}

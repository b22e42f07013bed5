/** Archive-bundle contracts, their mappings to source and catalog tables, and what an audit reports. */
module BundleModel {
  import opened Common
  import opened BundleValues

  const FAMILIES: seq<string> := ["capture", "pages", "funds", "holdings", "targets", "completion"]

  datatype Scope = RowScope | CaptureScope | ParentScope | ReceiptScope

  datatype Binding = PathBinding(from: Scope, path: string) | ArrayLength(path: string)

  datatype Projection = Projection(column: Column, binding: Binding)

  datatype Rule = Rule(
    rows: string, parent: Option<string>, columns: map<string, Projection>,
    manifestPath: string, indexColumn: string, bounds: Bounds)

  datatype Field = Field(column: string, fieldId: int, typ: string, required: bool)

  datatype Receipt = Receipt(captureId: string, digest: string, acceptedAt: string)

  datatype Contract = Contract(
    version: int, dialect: Option<Dialect>, capturePath: string, receiptPath: string,
    values: map<string, Value>, arrays: map<string, Bounds>, families: map<string, Rule>,
    receipt: Receipt, physicalVersion: Option<int>, fields: seq<Field>, indexReceipt: Receipt)

  datatype Mapping = Mapping(
    contract: string, version: int, namespace: string, indexTable: string, sources: map<string, string>)

  datatype SourceColumn = SourceColumn(table: string, column: string, udt: string, nullable: bool)

  datatype CatalogColumn = CatalogColumn(table: string, field: Field)

  datatype Input = Input(
    dialect: Option<Dialect>, source: seq<SourceColumn>, d1Source: Option<seq<SourceColumn>>,
    catalog: seq<CatalogColumn>, policies: map<string, string>,
    contracts: map<string, Contract>, mappings: seq<Mapping>)

  datatype Problem =
    | UnknownContract | BadVersion | BadDialect | BadPhysicalVersion | BadPhysicalIndex | LookupNeedsV2
    | BadIdentity | IndexReused | BadGroup | BadObjectPaths | ShapeConflict | BadValue | BadArray
    | AbsentIndex | BadField | FieldMismatch | UnmappedField | DuplicateField
    | BadTableName | SourceReused | NotBundled | AbsentSource | BadRows | RowsShared
    | DuplicateColumn | UnmappedColumn | StaleColumn | ColumnChanged | SharedValue | BadBinding | NotLossless
    | BadCount | CountShared | BadReceipt | BundledWithoutMapping | UnusedContract
}

/** Collection descriptors (crates/quiver-core/src/descriptor.rs). */
module Descriptors {
  import opened ByteStrings
  import opened SecondaryIndex

  datatype Dtype = F32

  datatype DistanceMetric = Dot | Cosine | L2

  datatype IndexKind = Hnsw | Vamana | DiskVamana | Ivf | Colbert

  datatype IndexSpec = IndexSpec(kind: IndexKind, pqSubspaces: Option<nat>, binary: bool)

  datatype VectorEncryption = Plain | Dcpe | ClientSide

  /** A collection's schema. */
  datatype Descriptor = Descriptor(
    dim: nat,
    dtype: Dtype,
    metric: DistanceMetric,
    index: IndexSpec,
    filterable: seq<FilterableField>,
    multivector: bool,
    vectorEncryption: VectorEncryption)
}

/** OpObjectExtraction and the composite operators: the feature names handed to the region
    feature extraction, and the `execute` methods that requests never reach. */
module ObjectExtraction {
  import opened Common

  /** `default_features`: the features the classification applet relies on. */
  const DefaultFeatures: set<string> := {"RegionCenter", "Coord<Minimum>", "Coord<Maximum>"}

  /** `set(config.vigra_features).union(set(self.default_features))`; the configured list is a
      parameter, and the order `list(...)` gives the set is not modelled. */
  function FeatureNames(configured: set<string>): (features: set<string>)
    ensures DefaultFeatures <= features && configured <= features
    ensures forall f :: f in features ==> f in configured || f in DefaultFeatures
  {
    configured + DefaultFeatures
  }

  /** The region centre, which OpObjectCenterImage reads, is extracted whatever is configured. */
  lemma RegionCenterAlwaysExtracted(configured: set<string>)
    ensures "RegionCenter" in FeatureNames(configured)
  {
  }

  /** The composite operators, whose outputs are connected to inner operators' outputs. */
  datatype CompositeOperator =
    | WrappedRegionFeatures3d
    | RegionFeaturesComposite
    | CachedRegionFeatures
    | ObjectExtractionComposite

  /** `execute` of a composite: `assert False, "Shouldn't get here."`, so any call fails. */
  function CompositeExecute(op: CompositeOperator): (r: Result<()>)
    ensures r.Err? && r.error == Unreachable
  {
    Err(Unreachable)
  }
}

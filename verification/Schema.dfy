/** common/schema.go, planner/context.go and the lookups of merger/type_url_map.go. */
module Schema {
  import opened Prelude

  const ID: string := "id"
  const NODE: string := "node"
  const NODE_INTERFACE: string := "Node"
  const TYPENAME: string := "__typename"
  const QUERY: string := "Query"
  const MUTATION: string := "Mutation"
  const SUBSCRIPTION: string := "Subscription"
  const INTERNAL_SERVICE: string := "%#!"

  predicate IsBuiltin(name: string) {
    |name| >= 2 && name[..2] == "__"
  }

  predicate IsRoot(typename: string) {
    typename == QUERY || typename == MUTATION || typename == SUBSCRIPTION
  }

  /** The type of a field: the innermost name, whether it is a list and whether the outermost level is non-null. */
  datatype TypeRef = TypeRef(name: string, list: bool, nonNull: bool)

  /** Field name to service URL, and whether the type implements Node. */
  datatype TypeProps = TypeProps(fields: map<string, string>, implementsNode: bool)

  type TypeURLMap = map<string, TypeProps>

  function Get(tum: TypeURLMap, typename: string, field: string): Option<string> {
    if typename in tum && field in tum[typename].fields then Some(tum[typename].fields[field]) else None
  }

  predicate ImplementsNode(tum: TypeURLMap, typename: string) {
    typename in tum && tum[typename].implementsNode
  }

  /** The id is never located, and no service is called like the internal one or by the empty name. */
  ghost predicate Sound(tum: TypeURLMap) {
    forall t :: t in tum ==>
      && ID !in tum[t].fields
      && forall f :: f in tum[t].fields ==> tum[t].fields[f] != INTERNAL_SERVICE && tum[t].fields[f] != ""
  }

  /** Everything the planner reads: the object types of the merged schema and the location map. */
  datatype Context = Context(types: map<string, map<string, TypeRef>>, tum: TypeURLMap)

  function GetURL(tum: TypeURLMap, typename: string, field: string, fallback: string): Result<string> {
    if IsBuiltin(field) then Ok(fallback)
    else if typename !in tum then Err("could not find location type")
    else if !tum[typename].implementsNode && fallback != INTERNAL_SERVICE && !IsRoot(typename) then Ok(fallback)
    else match Get(tum, typename, field)
      case None => Err("could not find location for field")
      case Some(url) => Ok(url)
  }

  /** A field sent elsewhere is at home where it is sent: this is what ends the planner's recursion. */
  lemma GetURLSettles(tum: TypeURLMap, typename: string, field: string, fallback: string)
    ensures var url := GetURL(tum, typename, field, fallback);
            url.Ok? && url.value != fallback ==>
              && !IsBuiltin(field)
              && Get(tum, typename, field) == Some(url.value)
              && GetURL(tum, typename, field, url.value) == url
  {
  }
}

/** The entities of the configuration registry: parameter declarations, configurable objects,
    the configurators that describe and create them, and the registry's errors. */
module ConfigTypes {
  import opened Wrappers

  /** A declared parameter: its key and its default value rendered as a string (Java may
      answer null here, hence the Option). */
  datatype ParameterType = ParameterType(key: string, defaultValue: Option<string>)

  /** A named bag of parameter values; a value may be null. */
  datatype Configurable = Configurable(name: string, parameters: map<string, Option<string>>)

  /** A configuration type: its id (a Java null is None), a display name, its parameter
      schema and its factory, which may refuse to build an object. */
  datatype Configurator = Configurator(
    typeId: Option<string>,
    name: string,
    parameterTypes: seq<ParameterType>,
    create: (string, map<string, Option<string>>) -> Result<Configurable, string>)

  /** The exceptions the registry throws; messages are the source's, reduced to their data. */
  datatype ConfigError =
    | NullConfigurator                        // "Registered configurator is null."
    | NullTypeId                              // "typeID must not be null for ..."
    | NoSuchType(typeId: string)              // "No such configuration type: ..."
    | NoSuchObject(name: string, typeName: string)  // "No such configured object of name ..."
    | UnknownType(typeId: string)             // "Unknown configurable type: ..."
    | AccessDenied(reason: string)            // thrown by an overriding checkAccess
    | CreateFailed(reason: string)            // thrown by Configurator.create
    | NullParameterValue(key: string)         // NullPointerException in toXML
    | InvalidXmlName(name: string)            // DOMException INVALID_CHARACTER_ERR of createElement
    | BadRoot                                 // "XML root tag must be <configuration>"
}

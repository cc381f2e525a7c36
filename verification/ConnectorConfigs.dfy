/** Connector configuration: reserved properties, and the delivery bound that always leaves room
    for the smallest delivery of the connector. */
module ConnectorConfigs {
  import opened Options
  import opened BigEndian
  import opened WireInput
  import Checkpoints
  import Deliveries

  const DEFAULT_MAX_DELIVERY_BYTES: nat := 16 * 1024 * 1024
  const DELIVERY_BYTES_OUTSIDE_CHECKPOINT: nat := 30
  const EMPTY_CHECKPOINT_FIXED_BYTES: nat := 26
  const JAVA_INTEGER_MAX: nat := 0x7fff_ffff

  predicate IsNamespace(key: string, namespace: string)
  {
    key == namespace || (|key| > |namespace| && key[..|namespace|] == namespace && key[|namespace|] == '.')
  }

  /** Properties the runtime owns. */
  predicate IsReserved(key: string)
  {
    || key in {"name", "connector.class", "tasks.max"}
    || IsNamespace(key, "offset") || IsNamespace(key, "record.processing")
    || IsNamespace(key, "transforms") || IsNamespace(key, "predicates")
    || IsNamespace(key, "key.converter") || IsNamespace(key, "value.converter")
    || IsNamespace(key, "header.converter") || IsNamespace(key, "dogpaddle")
  }

  /** The key is the namespace itself or stands below it. */
  predicate Under(key: string, namespace: string)
  {
    key == namespace || namespace + "." <= key
  }

  lemma NamespaceIff(key: string, namespace: string)
    ensures IsNamespace(key, namespace) <==> Under(key, namespace)
  {
    if IsNamespace(key, namespace) && key != namespace {
      assert key[..|namespace| + 1] == namespace + ".";
    }
    if namespace + "." <= key {
      assert key[|namespace|] == (namespace + ".")[|namespace|];
    }
  }

  /** Reserved are the name, the class, the number of tasks, and everything under eight namespaces. */
  lemma ReservedIff(key: string)
    ensures IsReserved(key) <==>
      || key == "name" || key == "connector.class" || key == "tasks.max"
      || Under(key, "offset") || Under(key, "record.processing") || Under(key, "transforms") || Under(key, "predicates")
      || Under(key, "key.converter") || Under(key, "value.converter") || Under(key, "header.converter")
      || Under(key, "dogpaddle")
  {
    NamespaceIff(key, "offset");
    NamespaceIff(key, "record.processing");
    NamespaceIff(key, "transforms");
    NamespaceIff(key, "predicates");
    NamespaceIff(key, "key.converter");
    NamespaceIff(key, "value.converter");
    NamespaceIff(key, "header.converter");
    NamespaceIff(key, "dogpaddle");
  }

  /** The size of the smallest delivery: with a checkpoint of the given length, or with an empty
      checkpoint for the binding. */
  function MinimumDeliveryBytes(engineName: bytes, connectorClass: bytes, checkpoint: Option<bytes>): nat
  {
    DELIVERY_BYTES_OUTSIDE_CHECKPOINT
    + if checkpoint.Some? then |checkpoint.value| else EMPTY_CHECKPOINT_FIXED_BYTES + |engineName| + |connectorClass|
  }

  function SmallestDelivery(checkpoint: bytes): Deliveries.Delivery
  {
    Deliveries.Delivery(checkpoint, [Deliveries.Record(None, None)])
  }

  function EmptyCheckpoint(rules: Rules, engineName: bytes, connectorClass: bytes): bytes
  {
    Checkpoints.EncodeCheckpoint(rules, Checkpoints.Image(engineName, connectorClass, []))
  }

  lemma {:induction false} RecordsAtLeast(rs: seq<Deliveries.Record>)
    ensures |Deliveries.EncodeRecords(rs)| >= 8 * |rs|
  {
    if rs != [] {
      RecordsAtLeast(rs[1..]);
    }
  }

  lemma SmallestRecords()
    ensures |Deliveries.EncodeRecords([Deliveries.Record(None, None)])| == 8
  {
    Deliveries.RecordsOne(Deliveries.Record(None, None));
  }

  /** No delivery of a binding is shorter than the minimum. */
  lemma MinimumHolds(rules: Rules, d: Deliveries.Delivery, image: Checkpoints.Image, limit: nat)
    requires Deliveries.LegalDelivery(rules, d, limit) && d.checkpoint == Checkpoints.EncodeCheckpoint(rules, image)
    ensures |Deliveries.EncodeDelivery(rules, d)| >= MinimumDeliveryBytes(image.engineName, image.connectorClass, None)
    ensures |Deliveries.EncodeDelivery(rules, d)| >= MinimumDeliveryBytes(image.engineName, image.connectorClass,
                                                                          Some(d.checkpoint))
  {
    Deliveries.BodyLength(rules, d);
    Checkpoints.BodyLong(rules, image);
    RecordsAtLeast(d.records);
  }

  /** The minimum is attained, for every binding and for every checkpoint to resume from. */
  lemma MinimumAttained(rules: Rules, engineName: bytes, connectorClass: bytes, checkpoint: bytes)
    requires Checkpoints.LegalBinding(rules, engineName) && Checkpoints.LegalBinding(rules, connectorClass)
    requires Checkpoints.IsCheckpoint(rules, checkpoint)
    ensures var least := MinimumDeliveryBytes(engineName, connectorClass, Some(checkpoint));
      && Deliveries.LegalDelivery(rules, SmallestDelivery(checkpoint), least)
      && |Deliveries.EncodeDelivery(rules, SmallestDelivery(checkpoint))| == least
    ensures var empty := EmptyCheckpoint(rules, engineName, connectorClass);
      var least := MinimumDeliveryBytes(engineName, connectorClass, None);
      && Deliveries.LegalDelivery(rules, SmallestDelivery(empty), least)
      && |Deliveries.EncodeDelivery(rules, SmallestDelivery(empty))| == least
  {
    var image := Checkpoints.Image(engineName, connectorClass, []);
    Checkpoints.BodyLong(rules, image);
    assert Checkpoints.EncodeEntries([]) == [];
    assert Checkpoints.Legal(rules, image);
    SmallestRecords();
    Deliveries.BodyLength(rules, SmallestDelivery(checkpoint));
    Deliveries.BodyLength(rules, SmallestDelivery(EmptyCheckpoint(rules, engineName, connectorClass)));
  }

  class ConnectorConfig {
    var properties: map<string, bytes>
    var maxDeliveryBytes: nat

    /** The binding is always present and legal, and the smallest delivery always fits. */
    ghost predicate Valid(rules: Rules)
      reads this
    {
      && "name" in properties && "connector.class" in properties
      && Checkpoints.LegalBinding(rules, properties["name"])
      && Checkpoints.LegalBinding(rules, properties["connector.class"])
      && MinimumDeliveryBytes(properties["name"], properties["connector.class"], None)
           <= maxDeliveryBytes <= JAVA_INTEGER_MAX
    }

    constructor (rules: Rules, name: bytes, connectorClass: bytes)
      requires Checkpoints.LegalBinding(rules, name) && Checkpoints.LegalBinding(rules, connectorClass)
      ensures Valid(rules) && properties == map["connector.class" := connectorClass, "name" := name]
      ensures maxDeliveryBytes == DEFAULT_MAX_DELIVERY_BYTES
    {
      properties := map["connector.class" := connectorClass, "name" := name];
      maxDeliveryBytes := DEFAULT_MAX_DELIVERY_BYTES;
    }

    /** Adds a property; the binding can never be replaced. */
    method Property(rules: Rules, key: string, value: bytes, blankKey: string -> bool) returns (ok: bool)
      requires Valid(rules)
      modifies this
      ensures Valid(rules) && maxDeliveryBytes == old(maxDeliveryBytes)
      ensures ok <==> !blankKey(key) && !IsReserved(key)
      ensures properties == if ok then old(properties)[key := value] else old(properties)
      ensures properties["name"] == old(properties["name"])
      ensures properties["connector.class"] == old(properties["connector.class"])
    {
      if blankKey(key) || IsReserved(key) {
        return false;
      }
      properties := properties[key := value];
      ok := true;
    }

    /** Sets the bound; accepted exactly when some delivery of this connector fits and Java can represent it. */
    method MaxDeliveryBytes(rules: Rules, limit: nat) returns (ok: bool)
      requires Valid(rules)
      modifies this
      ensures Valid(rules) && properties == old(properties)
      ensures ok
          <==> MinimumDeliveryBytes(properties["name"], properties["connector.class"], None)
               <= limit <= 0x7fff_ffff
      ensures maxDeliveryBytes == if ok then limit else old(maxDeliveryBytes)
    {
      var minimum := MinimumDeliveryBytes(properties["name"], properties["connector.class"], None);
      if limit < minimum || limit > JAVA_INTEGER_MAX {
        return false;
      }
      maxDeliveryBytes := limit;
      ok := true;
    }

    /** Accepts a start exactly when the smallest delivery that keeps the checkpoint fits. */
    method ValidateDeliveryBound(rules: Rules, checkpoint: Option<bytes>) returns (ok: bool)
      requires Valid(rules)
      requires checkpoint.Some? ==> Checkpoints.IsCheckpoint(rules, checkpoint.value)
      ensures checkpoint.Some? ==>
        (ok <==> Deliveries.LegalDelivery(rules, SmallestDelivery(checkpoint.value), maxDeliveryBytes))
      ensures checkpoint.None? ==> ok
    {
      ok := maxDeliveryBytes >= MinimumDeliveryBytes(properties["name"], properties["connector.class"], checkpoint);
      if checkpoint.Some? {
        MinimumAttained(rules, properties["name"], properties["connector.class"], checkpoint.value);
      }
    }
  }

  /** Creates a configuration; refused exactly when the binding could not appear in a checkpoint. */
  method NewConfig(rules: Rules, name: bytes, connectorClass: bytes) returns (r: Option<ConnectorConfig>)
    requires rules.utf8(name) && rules.utf8(connectorClass)
    ensures r.Some? <==> Checkpoints.LegalBinding(rules, name) && Checkpoints.LegalBinding(rules, connectorClass)
    ensures r.Some? ==>
      && fresh(r.value)
      && r.value.Valid(rules)
      && r.value.properties == map["connector.class" := connectorClass, "name" := name]
      && r.value.maxDeliveryBytes == 16 * 1024 * 1024
  {
    if rules.blank(name) || |name| > Checkpoints.MAX_BINDING_BYTES
       || rules.blank(connectorClass) || |connectorClass| > Checkpoints.MAX_BINDING_BYTES {
      return None;
    }
    var config := new ConnectorConfig(rules, name, connectorClass);
    r := Some(config);
  }

  /** A delivery within `limit` bytes for the binding, with the image its checkpoint encodes. */
  ghost predicate DeliveryOf(rules: Rules, engineName: bytes, connectorClass: bytes, limit: nat,
                             d: Deliveries.Delivery, image: Checkpoints.Image)
  {
    && Checkpoints.Legal(rules, image) && image.engineName == engineName && image.connectorClass == connectorClass
    && d.checkpoint == Checkpoints.EncodeCheckpoint(rules, image) && Deliveries.LegalDelivery(rules, d, limit)
  }

  /** Some delivery of a binding fits a limit exactly when the limit is at least the minimum. */
  lemma FitsIffMinimum(rules: Rules, engineName: bytes, connectorClass: bytes, limit: nat)
    requires Checkpoints.LegalBinding(rules, engineName) && Checkpoints.LegalBinding(rules, connectorClass)
    ensures limit >= MinimumDeliveryBytes(engineName, connectorClass, None) <==>
      exists d, image :: DeliveryOf(rules, engineName, connectorClass, limit, d, image)
  {
    var image := Checkpoints.Image(engineName, connectorClass, []);
    Checkpoints.BodyLong(rules, image);
    assert Checkpoints.EncodeEntries([]) == [];
    assert Checkpoints.Legal(rules, image);
    var empty := EmptyCheckpoint(rules, engineName, connectorClass);
    MinimumAttained(rules, engineName, connectorClass, empty);
    if limit >= MinimumDeliveryBytes(engineName, connectorClass, None) {
      assert DeliveryOf(rules, engineName, connectorClass, limit, SmallestDelivery(empty), image);
    }
    if exists d, i :: DeliveryOf(rules, engineName, connectorClass, limit, d, i) {
      var d, i :| DeliveryOf(rules, engineName, connectorClass, limit, d, i);
      MinimumHolds(rules, d, i, limit);
    }
  }
}
